/** What a migration leaves, whether it succeeds or is given up: the theorems about `IsExecuted`. */
module MigrationRuns {
  import opened Wrappers
  import opened Rows
  import opened Tables
  import opened QueryEngine
  import opened Migrations
  import opened MigrationSteps
  import opened Recovery

  // ----- One table at a time

  function RowsAt(channels: map<nat, map<nat, Row>>, channel: Option<nat>): Option<map<nat, Row>> {
    if channel.Some? && channel.value in channels then Some(channels[channel.value]) else None
  }

  /** All there is of a table: its schema, its channel, its rows and its index. */
  datatype TableView = TableView(definition: Option<Definition>, live: Option<nat>, archived: Option<nat>,
                                 rows: Option<map<nat, Row>>, keys: set<IndexKey>)

  function ViewOf(w: World, t: string): TableView {
    var p := w.stored.project;
    TableView(At(w.stored.schemas, t), At(p.live, t), At(p.archived, t), RowsAt(w.stored.channels, At(Homes(p), t)),
              Share(w.entries, t))
  }

  lemma NearView(before: World, after: World, table: string, channel: nat, t: string)
    requires IsNear(before, after, table, channel) && t != table
    requires At(Homes(before.stored.project), t) != Some(channel)
    ensures ViewOf(after, t) == ViewOf(before, t)
  {
    assert Share(after.entries, t) == Share(before.entries, t);
  }

  predicate IsAbout(event: SchemaEvent, t: string) {
    (event.Saved? || event.Removed?) && event.table == t
  }

  lemma SentView(w: World, event: SchemaEvent, t: string)
    requires !IsAbout(event, t)
    ensures ViewOf(EventSent(w, event).world, t) == ViewOf(w, t)
  {
  }

  lemma MovedView(w: World, op: Operation, spare: nat, t: string)
    requires op.table != t
    ensures ViewOf(ProjectSaved(w, Relocated(w.stored.project, op, spare)).world, t) == ViewOf(w, t)
  {
    var p, next := w.stored.project, Relocated(w.stored.project, op, spare);
    assert At(next.live, t) == At(p.live, t) && At(next.archived, t) == At(p.archived, t);
    assert At(Homes(next), t) == At(Homes(p), t);
  }

  lemma IndexView(w: World, table: string, t: string)
    requires table != t
    ensures ViewOf(IndexDropped(w, table).world, t) == ViewOf(w, t)
  {
    ShareOfWith(w.entries, table, {}, t);
  }

  lemma MadeView(w: World, t: string)
    requires IsHoused(w.stored.project, w.stored.channels) && IsBounded(w.stored.channels, w.nextChannel)
    ensures ViewOf(ChannelMade(w).world, t) == ViewOf(w, t)
  {
    var p := w.stored.project;
    assert t in Homes(p) ==> Homes(p)[t] in w.stored.channels;
  }

  lemma ArchivedView(op: Operation, job: Job, t: string)
    requires op.DropTable? && op.table != t
    ensures ViewOf(Archived(op, job).job.world, t) == ViewOf(job.world, t)
  {
    var saved := ProjectSaved(job.world, Relocated(job.world.stored.project, op, 0));
    MovedView(job.world, op, 0, t);
    var sent := EventSent(saved.world, Removed(op.table));
    SentView(saved.world, Removed(op.table), t);
    IndexView(sent.world, op.table, t);
  }

  lemma RevivedView(op: Operation, job: Job, t: string)
    requires op.CreateTable? && op.table != t
    ensures ViewOf(Revived(op, job).job.world, t) == ViewOf(job.world, t)
  {
    var saved := ProjectSaved(job.world, Relocated(job.world.stored.project, op, 0));
    MovedView(job.world, op, 0, t);
    SentView(saved.world, Saved(op.table, op.definition), t);
  }

  lemma AddedView(w: World, table: string, definition: Definition, t: string)
    requires IsHoused(w.stored.project, w.stored.channels) && IsBounded(w.stored.channels, w.nextChannel) && table != t
    ensures ViewOf(TableAdded(w, table, definition).world, t) == ViewOf(w, t)
  {
    var p, made := w.stored.project, ChannelMade(w);
    MadeView(w, t);
    var next := Project(p.live[table := w.nextChannel], p.archived);
    var saved := ProjectSaved(made.world, next);
    assert At(next.live, t) == At(p.live, t) && At(Homes(next), t) == At(Homes(p), t);
    assert made.error == None ==> ViewOf(saved.world, t) == ViewOf(made.world, t);
    SentView(saved.world, Saved(table, definition), t);
  }

  lemma RedefinedView(op: Operation, job: Job, t: string)
    requires op.table != t
    ensures ViewOf(Redefined(op, job).job.world, t) == ViewOf(job.world, t)
  {
    if op.table in job.world.stored.schemas {
      SentView(job.world, Saved(op.table, NextDefinition(op, job.world.stored.schemas[op.table])), t);
    }
  }

  lemma LookedView(table: string, job: Job, t: string)
    ensures ViewOf(Looked(table, job).job.world, t) == ViewOf(job.world, t)
  {
  }

  lemma MappedView(op: Operation, job: Job, t: string)
    requires AreApart(Homes(job.world.stored.project))
    requires job.world.stored.project.live.Keys !! job.world.stored.project.archived.Keys
    requires op.table != t && op.table in job.world.stored.project.live
    ensures ViewOf(RowsMapped(op, job).job.world, t) == ViewOf(job.world, t)
  {
    var p := job.world.stored.project;
    RowsMappedNear(op, job);
    assert op.table in Homes(p) && Homes(p)[op.table] == p.live[op.table];
    NearView(job.world, RowsMapped(op, job).job.world, op.table, p.live[op.table], t);
  }

  lemma RewrittenView(op: Operation, job: Job, t: string)
    requires IsHoused(job.world.stored.project, job.world.stored.channels) && op.table != t
    ensures ViewOf(Rewritten(op, job).job.world, t) == ViewOf(job.world, t)
  {
    var looked := Looked(op.table, job);
    LookedView(op.table, job, t);
    if looked.error == None && !LacksBackfill(op) {
      if RewritesRows(op) {
        MappedView(op, looked.job, t);
        RedefinedView(op, RowsMapped(op, looked.job).job, t);
      } else {
        RedefinedView(op, looked.job, t);
      }
    }
  }

  /** An operation leaves the other tables alone, also when it fails. */
  lemma OperatedView(op: Operation, job: Job, mentions: (string, string) -> bool, t: string)
    requires IsHoused(job.world.stored.project, job.world.stored.channels)
    requires IsBounded(job.world.stored.channels, job.world.nextChannel)
    requires op.table != t
    ensures ViewOf(Operated(op, job, mentions).job.world, t) == ViewOf(job.world, t)
  {
    if Objection(op, job.world.stored.schemas, mentions) == None {
      if op.CreateTable? {
        RevivedView(op, job, t);
        AddedView(job.world, op.table, op.definition, t);
      } else if op.DropTable? {
        LookedView(op.table, job, t);
        ArchivedView(op, Looked(op.table, job).job, t);
      } else {
        RedefinedView(op, job, t);
        RewrittenView(op, job, t);
      }
    }
  }

  /** What is remembered of a table. */
  predicate SameNotes(a: Job, b: Job, t: string) {
    && At(a.ledger.snapshots, t) == At(b.ledger.snapshots, t) && At(a.ledger.created, t) == At(b.ledger.created, t)
    && (t in a.touched <==> t in b.touched)
  }

  lemma MappedNotes(op: Operation, job: Job)
    ensures RowsMapped(op, job).job == job.(world := RowsMapped(op, job).job.world)
  {
  }

  lemma RedefinedNotes(op: Operation, job: Job, t: string)
    requires op.table != t
    ensures SameNotes(Redefined(op, job).job, job, t)
  {
  }

  lemma RewrittenNotes(op: Operation, job: Job, t: string)
    requires op.table != t
    ensures SameNotes(Rewritten(op, job).job, job, t)
  {
    var looked := Looked(op.table, job);
    assert SameNotes(looked.job, job, t);
    if looked.error == None && !LacksBackfill(op) {
      MappedNotes(op, looked.job);
      RedefinedNotes(op, looked.job, t);
      RedefinedNotes(op, RowsMapped(op, looked.job).job, t);
    }
  }

  lemma OperatedNotes(op: Operation, job: Job, mentions: (string, string) -> bool, t: string)
    requires op.table != t
    ensures SameNotes(Operated(op, job, mentions).job, job, t)
  {
    if Objection(op, job.world.stored.schemas, mentions) == None {
      if !op.CreateTable? && !op.DropTable? && !op.AddIndex? && !op.RemoveIndex? && !op.ReplacePolicies? {
        RewrittenNotes(op, job, t);
      }
    }
  }

  predicate Names(ops: seq<Operation>, t: string) {
    exists i :: 0 <= i < |ops| && ops[i].table == t
  }

  lemma {:induction false} RanView(start: Stored, ops: seq<Operation>, job: Job, mentions: (string, string) -> bool,
                                   t: string)
    requires Tracks(start, job) && !Names(ops, t)
    ensures var last := Ran(ops, job, mentions).job;
      ViewOf(last.world, t) == ViewOf(job.world, t) && SameNotes(last, job, t)
    decreases |ops|
  {
    if ops != [] {
      TracksMeans(start, job);
      assert ops[0].table != t;
      OperatedView(ops[0], job, mentions, t);
      OperatedNotes(ops[0], job, mentions, t);
      OperatedTracks(start, job, ops[0], mentions);
      assert !Names(ops[1..], t) by {
        assert forall i :: 0 <= i < |ops[1..]| ==> ops[1..][i] == ops[i + 1];
      }
      RanView(start, ops[1..], Operated(ops[0], job, mentions).job, mentions, t);
    }
  }

  /** A state a migration may begin in: whatever a failed one has left is one. */
  ghost predicate IsStart(w: World) {
    IsHoused(w.stored.project, w.stored.channels) && IsBounded(w.stored.channels, w.nextChannel)
  }

  lemma StoppedTracks(before: World, ops: seq<Operation>, mentions: (string, string) -> bool, error: MigrationError,
                      last: Job)
    requires IsStart(before) && IsStopped(before, ops, mentions, error, last)
    ensures Tracks(before.stored, last)
  {
    FreshTracks(before);
    RanTracks(before.stored, Fresh(before), ops, mentions);
  }

  /** A migration leaves every table it does not name as it was, whether it succeeds or not. */
  lemma OthersStay(before: World, migration: string, ops: seq<Operation>, up: bool, mentions: (string, string) -> bool,
                   error: Option<MigrationError>, last: Job, after: World, t: string)
    requires IsStart(before) && IsExecuted(before, migration, ops, up, mentions, error, last, after) && !Names(ops, t)
    ensures ViewOf(after, t) == ViewOf(before, t)
  {
    var run := Ran(ops, Fresh(before), mentions);
    FreshTracks(before);
    RanView(before.stored, ops, Fresh(before), mentions, t);
    if error == None {
      assert Share(after.entries, t) == Share(run.job.world.entries, t);
    } else {
      StoppedTracks(before, ops, mentions, error.value, last);
      StoppedView(before, ops, mentions, error.value, last, t);
      assert At(after.stored.schemas, t) == ReturnedAt(before.stored.project, last, t);
      assert IsTableGivenUp(before.stored.project, last, after, t);
    }
  }

  lemma StoppedView(before: World, ops: seq<Operation>, mentions: (string, string) -> bool, error: MigrationError,
                    last: Job, t: string)
    requires IsStart(before) && IsStopped(before, ops, mentions, error, last) && !Names(ops, t)
    ensures ViewOf(last.world, t) == ViewOf(before, t) && t !in last.ledger.snapshots && t !in last.ledger.created
  {
    FreshTracks(before);
    RanView(before.stored, ops, Fresh(before), mentions, t);
    var run := Ran(ops, Fresh(before), mentions);
    assert t !in run.job.touched;
    assert run.error == None ==> Share(last.world.entries, t) == Share(run.job.world.entries, t);
    assert At(BLANK.snapshots, t) == None && At(BLANK.created, t) == None;
  }

  // ----- What an operation remembers of its table

  /** The operations that take a snapshot of their table before they change it. */
  predicate Looks(op: Operation) {
    op.DropTable? || op.AddColumn? || op.RemoveColumn? || op.RenameColumn? || op.ChangeType?
  }

  /** What an operation that is carried out makes of the definition of its table. */
  function NextAt(definition: Option<Definition>, op: Operation): Option<Definition> {
    if op.CreateTable? then Some(op.definition)
    else if definition == None || op.DropTable? then None
    else Some(NextDefinition(op, definition.value))
  }

  /** The definition that a failure would bring back. */
  function MemoryOf(job: Job, t: string): Option<Definition> {
    if t in job.ledger.snapshots then Some(job.ledger.snapshots[t].definition) else At(job.world.stored.schemas, t)
  }

  /** What one operation does to the memory of its own table. */
  ghost predicate MindsMemory(op: Operation, job: Job, o: Outcome) {
    var t := op.table;
    && (t in job.ledger.snapshots ==> At(o.job.ledger.snapshots, t) == At(job.ledger.snapshots, t))
    && (Looks(op) || o.error.Some? ==> MemoryOf(o.job, t) == MemoryOf(job, t))
    && (Looks(op) && o.error == None ==> t in o.job.ledger.snapshots)
    && (!Looks(op) ==> o.job.ledger.snapshots == job.ledger.snapshots)
    && (o.error == None ==> At(o.job.world.stored.schemas, t) == NextAt(At(job.world.stored.schemas, t), op))
  }

  lemma LookedMemory(op: Operation, job: Job)
    requires Looks(op)
    ensures var looked := Looked(op.table, job);
      && looked.job.world.stored == job.world.stored
      && (op.table in job.ledger.snapshots ==> looked.job.ledger == job.ledger)
      && MemoryOf(looked.job, op.table) == MemoryOf(job, op.table)
      && (looked.error == None ==> op.table in looked.job.ledger.snapshots && op.table in job.world.stored.schemas)
  {
  }

  lemma ArchivedMemory(op: Operation, job: Job)
    requires op.DropTable?
    ensures Archived(op, job).job.ledger == job.ledger
    ensures Archived(op, job).error == None ==> At(Archived(op, job).job.world.stored.schemas, op.table) == None
  {
  }

  lemma RedefinedMemory(op: Operation, job: Job)
    requires !op.CreateTable? && !op.DropTable?
    ensures var o := Redefined(op, job);
      && o.job.ledger == job.ledger
      && if o.error == None
         then At(o.job.world.stored.schemas, op.table) == NextAt(At(job.world.stored.schemas, op.table), op)
         else o.job.world.stored == job.world.stored
  {
  }

  lemma MappedMemory(op: Operation, job: Job)
    ensures RowsMapped(op, job).job.ledger == job.ledger
    ensures RowsMapped(op, job).job.world.stored.schemas == job.world.stored.schemas
  {
    if op.table in job.world.stored.project.live {
      RowsMappedNear(op, job);
    }
  }

  lemma RewrittenMemory(op: Operation, job: Job)
    requires Looks(op) && !op.DropTable?
    ensures MindsMemory(op, job, Rewritten(op, job))
  {
    var looked := Looked(op.table, job);
    LookedMemory(op, job);
    if looked.error == None && !LacksBackfill(op) {
      MappedMemory(op, looked.job);
      RedefinedMemory(op, looked.job);
      RedefinedMemory(op, RowsMapped(op, looked.job).job);
    }
  }

  lemma CreatedMemory(op: Operation, job: Job)
    requires op.CreateTable?
    ensures MindsMemory(op, job, Revived(op, job)) && MindsMemory(op, job, Founded(op, job))
  {
  }

  lemma OperatedMemory(op: Operation, job: Job, mentions: (string, string) -> bool)
    ensures MindsMemory(op, job, Operated(op, job, mentions))
  {
    if Objection(op, job.world.stored.schemas, mentions) == None {
      if op.CreateTable? {
        CreatedMemory(op, job);
      } else if op.DropTable? {
        LookedMemory(op, job);
        ArchivedMemory(op, Looked(op.table, job).job);
      } else if Looks(op) {
        RewrittenMemory(op, job);
      } else {
        RedefinedMemory(op, job);
      }
    }
  }

  lemma RedefinedKeeps(op: Operation, job: Job)
    ensures Redefined(op, job).job.ledger == job.ledger
    ensures Redefined(op, job).job.world.stored.project == job.world.stored.project
  {
  }

  lemma MappedKeeps(op: Operation, job: Job)
    ensures RowsMapped(op, job).job.ledger == job.ledger
    ensures RowsMapped(op, job).job.world.stored.project == job.world.stored.project
  {
    if op.table in job.world.stored.project.live {
      RowsMappedNear(op, job);
    }
  }

  lemma RewrittenKnown(op: Operation, job: Job)
    ensures Rewritten(op, job).job.ledger.created == job.ledger.created
    ensures Rewritten(op, job).job.world.stored.project == job.world.stored.project
  {
    var looked := Looked(op.table, job);
    assert looked.job.ledger.created == job.ledger.created && looked.job.world.stored == job.world.stored;
    if looked.error == None && !LacksBackfill(op) {
      MappedKeeps(op, looked.job);
      RedefinedKeeps(op, looked.job);
      RedefinedKeeps(op, RowsMapped(op, looked.job).job);
    }
  }

  lemma SameMaps<T>(a: map<string, T>, b: map<string, T>)
    requires forall t :: At(a, t) == At(b, t)
    ensures a == b
  {
    forall t
      ensures t in a <==> t in b
      ensures t in a ==> a[t] == b[t]
    {
      assert At(a, t) == At(b, t);
    }
  }

  // ----- After a success

  function WithEdits(rows: map<nat, Row>, edits: seq<Edit>): map<nat, Row>
    decreases |edits|
  {
    if edits == [] then rows else WithEdits(rows[edits[0].id := edits[0].row], edits[1..])
  }

  lemma RowInPlace(w: World, table: string, schema: Schema, channel: nat, edit: Edit)
    requires channel in w.stored.channels && RowWritten(w, table, schema, channel, edit).error == None
    ensures RowWritten(w, table, schema, channel, edit).world.stored.channels[channel] ==
      w.stored.channels[channel][edit.id := edit.row]
  {
  }

  lemma {:induction false} AllWritten(w: World, table: string, schema: Schema, channel: nat, edits: seq<Edit>)
    requires channel in w.stored.channels && RowsWritten(w, table, schema, channel, edits).error == None
    ensures RowsWritten(w, table, schema, channel, edits).world.stored.channels[channel] ==
      WithEdits(w.stored.channels[channel], edits)
    decreases |edits|
  {
    if edits != [] {
      RowInPlace(w, table, schema, channel, edits[0]);
      AllWritten(RowWritten(w, table, schema, channel, edits[0]).world, table, schema, channel, edits[1..]);
    }
  }

  lemma {:induction false} EditsInPlace(rows: map<nat, Row>, edits: seq<Edit>)
    requires AreAscending(edits)
    ensures forall e :: e in edits ==> e.id in WithEdits(rows, edits) && WithEdits(rows, edits)[e.id] == e.row
    ensures forall id :: id in WithEdits(rows, edits) <==> id in rows || (exists e :: e in edits && e.id == id)
    ensures forall id :: id in rows && (forall e :: e in edits ==> e.id != id) ==>
      WithEdits(rows, edits)[id] == rows[id]
    decreases |edits|
  {
    if edits != [] {
      EditsInPlace(rows[edits[0].id := edits[0].row], edits[1..]);
      assert edits == [edits[0]] + edits[1..];
      assert forall e :: e in edits[1..] ==> e.id != edits[0].id;
    }
  }

  lemma InOrderInPlace(rows: map<nat, Row>, target: map<nat, Row>)
    requires rows.Keys == target.Keys
    ensures WithEdits(rows, InOrder(target)) == target
  {
    InOrderRows(target);
    EditsInPlace(rows, InOrder(target));
    forall id | id in target
      ensures WithEdits(rows, InOrder(target))[id] == target[id]
    {
      assert Edit(id, target[id]) in InOrder(target);
    }
  }

  lemma MappedOwnRows(op: Operation, job: Job)
    requires op.table in job.world.stored.project.live
    requires job.world.stored.project.live[op.table] in job.world.stored.channels
    requires RowsMapped(op, job).error == None
    ensures var c := job.world.stored.project.live[op.table];
      && c in RowsMapped(op, job).job.world.stored.channels
      && Some(RowsMapped(op, job).job.world.stored.channels[c]) == MappedRows(op, job.world.stored.channels[c])
  {
    var c := job.world.stored.project.live[op.table];
    var rows, mapped := job.world.stored.channels[c], MappedRows(op, job.world.stored.channels[c]);
    AllWritten(Called(job.world), op.table, NextDefinition(op, job.world.stored.schemas[op.table]).schema, c,
               InOrder(mapped.value));
    InOrderInPlace(rows, mapped.value);
  }

  lemma RedefinedChannels(op: Operation, job: Job)
    ensures Redefined(op, job).job.world.stored.channels == job.world.stored.channels
  {
  }

  lemma RewrittenOwnRows(op: Operation, job: Job)
    requires IsHoused(job.world.stored.project, job.world.stored.channels) && op.table in job.world.stored.project.live
    requires Looks(op) && !op.DropTable? && Rewritten(op, job).error == None
    ensures
      var c, after := job.world.stored.project.live[op.table], Rewritten(op, job).job.world.stored.channels;
      c in job.world.stored.channels && c in after && Some(after[c]) == RewrittenRows(op, job.world.stored.channels[c])
  {
    var looked, p := Looked(op.table, job), job.world.stored.project;
    assert op.table in Homes(p) && Homes(p)[op.table] == p.live[op.table];
    assert looked.job.world.stored == job.world.stored;
    if RewritesRows(op) {
      MappedOwnRows(op, looked.job);
      RedefinedChannels(op, RowsMapped(op, looked.job).job);
    } else {
      RedefinedChannels(op, looked.job);
    }
  }

  lemma RewrittenWasLive(op: Operation, job: Job)
    requires Looks(op) && !op.DropTable? && Rewritten(op, job).error == None
    ensures op.table in job.world.stored.project.live
  {
  }

  lemma MovedRows(op: Operation, job: Job)
    requires IsHoused(job.world.stored.project, job.world.stored.channels)
    requires op.table in Homes(job.world.stored.project)
    ensures op.DropTable? && Dropped(op, job).error == None ==>
      KeepsRows(op.table, job.world.stored, Dropped(op, job).job.world.stored)
    ensures op.CreateTable? && op.table in job.world.stored.project.archived && Revived(op, job).error == None ==>
      KeepsRows(op.table, job.world.stored, Revived(op, job).job.world.stored)
    ensures op.CreateTable? && op.table !in job.world.stored.project.archived ==> Founded(op, job).error.Some?
  {
    var p := job.world.stored.project;
    if (op.DropTable? && op.table in p.live) || (op.CreateTable? && op.table in p.archived) {
      MovedHomes(p, op);
    }
  }

  /** A table keeps its channel and its rows. */
  predicate KeepsRows(t: string, before: Stored, after: Stored) {
    && At(Homes(after.project), t) == At(Homes(before.project), t)
    && RowsAt(after.channels, At(Homes(before.project), t)) == RowsAt(before.channels, At(Homes(before.project), t))
  }

  lemma OwnRows(op: Operation, job: Job, mentions: (string, string) -> bool)
    requires IsHoused(job.world.stored.project, job.world.stored.channels)
    requires op.table in Homes(job.world.stored.project)
    requires Operated(op, job, mentions).error == None
    ensures
      var before, after, t := job.world.stored, Operated(op, job, mentions).job.world.stored, op.table;
      && At(Homes(after.project), t) == At(Homes(before.project), t)
      && RowsAt(after.channels, At(Homes(after.project), t)) ==
           RewrittenRows(op, before.channels[Homes(before.project)[t]])
  {
    if Looks(op) && !op.DropTable? {
      RewrittenWasLive(op, job);
      RewrittenKnown(op, job);
      RewrittenOwnRows(op, job);
    } else if op.CreateTable? || op.DropTable? {
      MovedRows(op, job);
    } else {
      RedefinedKeeps(op, job);
      RedefinedChannels(op, job);
    }
  }

  lemma {:induction false} RanRows(start: Stored, ops: seq<Operation>, job: Job, mentions: (string, string) -> bool,
                                   t: string)
    requires Tracks(start, job) && t in Homes(job.world.stored.project) && Ran(ops, job, mentions).error == None
    ensures
      var before, after := job.world.stored, Ran(ops, job, mentions).job.world.stored;
      && Homes(before.project)[t] in before.channels
      && At(Homes(after.project), t) == At(Homes(before.project), t)
      && RowsAt(after.channels, At(Homes(after.project), t)) ==
           RowsAfter(ops, t, before.channels[Homes(before.project)[t]])
    decreases |ops|
  {
    TracksMeans(start, job);
    if ops != [] {
      var op, o := ops[0], Operated(ops[0], job, mentions);
      OperatedTracks(start, job, op, mentions);
      if op.table == t {
        OwnRows(op, job, mentions);
      } else {
        OperatedView(op, job, mentions, t);
        HomeOfView(job.world, t);
        HomeOfView(o.job.world, t);
      }
      RanRows(start, ops[1..], o.job, mentions, t);
    }
  }

  lemma HomeOfView(w: World, t: string)
    ensures var v := ViewOf(w, t);
      At(Homes(w.stored.project), t) == (if v.archived.Some? then v.archived else v.live)
      && RowsAt(w.stored.channels, At(Homes(w.stored.project), t)) == v.rows
  {
  }

  lemma OperatedSchemas(start: Stored, op: Operation, job: Job, mentions: (string, string) -> bool)
    requires Tracks(start, job) && Operated(op, job, mentions).error == None
    ensures Operated(op, job, mentions).job.world.stored.schemas == NextSchemas(job.world.stored.schemas, op)
  {
    TracksMeans(start, job);
    var before, after := job.world.stored.schemas, Operated(op, job, mentions).job.world.stored.schemas;
    forall t
      ensures At(after, t) == At(NextSchemas(before, op), t)
    {
      if t == op.table {
        OperatedMemory(op, job, mentions);
      } else {
        OperatedView(op, job, mentions, t);
        assert ViewOf(Operated(op, job, mentions).job.world, t).definition == At(before, t);
      }
    }
    SameMaps(after, NextSchemas(before, op));
  }

  lemma {:induction false} RanSchemas(start: Stored, ops: seq<Operation>, job: Job, mentions: (string, string) -> bool)
    requires Tracks(start, job) && Ran(ops, job, mentions).error == None
    ensures Ran(ops, job, mentions).job.world.stored.schemas == NextAll(job.world.stored.schemas, ops)
    decreases |ops|
  {
    if ops != [] {
      OperatedTracks(start, job, ops[0], mentions);
      OperatedSchemas(start, ops[0], job, mentions);
      RanSchemas(start, ops[1..], Operated(ops[0], job, mentions).job, mentions);
    }
  }

  /**
   * After a migration that succeeded, the schemas are those the operations ask for, every table has the channel it
   * had, and its rows are its old rows as the operations on it map them, in order.
   */
  lemma SuccessIsWhole(before: World, migration: string, ops: seq<Operation>, up: bool,
                       mentions: (string, string) -> bool, after: World)
    requires IsStart(before) && IsFinished(before, migration, ops, up, mentions, after)
    ensures after.stored.schemas == NextAll(before.stored.schemas, ops)
    ensures forall t :: t in Homes(before.stored.project) ==>
      && Homes(before.stored.project)[t] in before.stored.channels
      && At(Homes(after.stored.project), t) == At(Homes(before.stored.project), t)
      && RowsAt(after.stored.channels, At(Homes(after.stored.project), t))
         == RowsAfter(ops, t, before.stored.channels[Homes(before.stored.project)[t]])
  {
    FreshTracks(before);
    RanSchemas(before.stored, ops, Fresh(before), mentions);
    forall t | t in Homes(before.stored.project)
      ensures
        && Homes(before.stored.project)[t] in before.stored.channels
        && At(Homes(after.stored.project), t) == At(Homes(before.stored.project), t)
        && RowsAt(after.stored.channels, At(Homes(after.stored.project), t))
           == RowsAfter(ops, t, before.stored.channels[Homes(before.stored.project)[t]])
    {
      RanRows(before.stored, ops, Fresh(before), mentions, t);
    }
  }

  // ----- The index after a success

  predicate IsLiveView(v: TableView) {
    v.definition.Some? && v.live.Some? && v.rows.Some?
  }

  function ExpectedOf(v: TableView): set<IndexKey> {
    if IsLiveView(v) then TableKeys(v.definition.value.schema, v.rows.value) else {}
  }

  /** The index of a table is as it should be. */
  predicate IsCurrent(w: World, t: string) {
    Share(w.entries, t) == ExpectedOf(ViewOf(w, t))
  }

  lemma LiveView(w: World, t: string)
    requires w.stored.project.live.Keys !! w.stored.project.archived.Keys
    ensures IsLive(w.stored, t) <==> IsLiveView(ViewOf(w, t))
    ensures Expected(w.stored, t) == ExpectedOf(ViewOf(w, t))
  {
    HomeOfView(w, t);
  }

  /** The index is as it should be, or waits to be rebuilt. */
  predicate IsCurrentOrPending(job: Job, t: string) {
    IsCurrent(job.world, t) || (t in job.touched && IsLiveView(ViewOf(job.world, t)))
  }

  lemma CreatedPending(op: Operation, job: Job)
    requires op.CreateTable? && IsHoused(job.world.stored.project, job.world.stored.channels)
    requires op.table in job.world.stored.project.archived
    ensures Revived(op, job).error == None ==> IsCurrentOrPending(Revived(op, job).job, op.table)
  {
    assert op.table in Homes(job.world.stored.project);
  }

  lemma FoundedPending(op: Operation, job: Job)
    requires op.CreateTable? && op.table !in job.world.stored.project.archived
    ensures Founded(op, job).error == None ==> IsCurrentOrPending(Founded(op, job).job, op.table)
  {
  }

  lemma ArchivedCurrent(op: Operation, job: Job)
    requires op.DropTable?
    ensures Archived(op, job).error == None ==> IsCurrent(Archived(op, job).job.world, op.table)
  {
    ShareOfWith(job.world.entries, op.table, {}, op.table);
  }

  lemma RedefinedPending(op: Operation, job: Job)
    requires !op.CreateTable? && !op.DropTable? && IsCurrentOrPending(job, op.table)
    ensures Redefined(op, job).error == None ==> IsCurrentOrPending(Redefined(op, job).job, op.table)
  {
  }

  lemma RewrittenPending(op: Operation, job: Job)
    requires Looks(op) && !op.DropTable? && IsHoused(job.world.stored.project, job.world.stored.channels)
    ensures Rewritten(op, job).error == None ==> IsCurrentOrPending(Rewritten(op, job).job, op.table)
  {
    if Rewritten(op, job).error == None {
      RewrittenWasLive(op, job);
      RewrittenOwnRows(op, job);
      RewrittenKnown(op, job);
      RewrittenMemory(op, job);
      RewrittenTouches(op, job);
    }
  }

  lemma RewrittenTouches(op: Operation, job: Job)
    requires Looks(op) && !op.DropTable? && Rewritten(op, job).error == None
    ensures op.table in Rewritten(op, job).job.touched && op.table in Rewritten(op, job).job.world.stored.schemas
  {
  }

  lemma OwnPending(op: Operation, job: Job, mentions: (string, string) -> bool)
    requires IsHoused(job.world.stored.project, job.world.stored.channels)
    requires IsCurrentOrPending(job, op.table) && Operated(op, job, mentions).error == None
    ensures IsCurrentOrPending(Operated(op, job, mentions).job, op.table)
  {
    if op.CreateTable? {
      if op.table in job.world.stored.project.archived {
        CreatedPending(op, job);
      } else {
        FoundedPending(op, job);
      }
    } else if op.DropTable? {
      ArchivedCurrent(op, Looked(op.table, job).job);
    } else if Looks(op) {
      RewrittenPending(op, job);
    } else {
      RedefinedPending(op, job);
    }
  }

  lemma {:induction false} RanPending(start: Stored, ops: seq<Operation>, job: Job, mentions: (string, string) -> bool,
                                      t: string)
    requires Tracks(start, job) && IsCurrentOrPending(job, t) && Ran(ops, job, mentions).error == None
    ensures IsCurrentOrPending(Ran(ops, job, mentions).job, t)
    decreases |ops|
  {
    if ops != [] {
      var op, o := ops[0], Operated(ops[0], job, mentions);
      TracksMeans(start, job);
      OperatedTracks(start, job, op, mentions);
      if op.table == t {
        OwnPending(op, job, mentions);
      } else {
        OperatedView(op, job, mentions, t);
        OperatedNotes(op, job, mentions, t);
        assert ViewOf(o.job.world, t).keys == ViewOf(job.world, t).keys;
      }
      RanPending(start, ops[1..], o.job, mentions, t);
    }
  }

  lemma ConcludedView(job: Job, migration: string, up: bool, after: World, t: string)
    requires IsConcluded(job, migration, up, after)
    ensures ViewOf(after, t) == ViewOf(job.world, t).(keys := Share(after.entries, t))
  {
  }

  lemma ConcludedCurrent(start: Stored, job: Job, migration: string, up: bool, after: World, t: string)
    requires Tracks(start, job) && IsConcluded(job, migration, up, after)
    ensures IsCurrent(after, t) <==> IsCurrentOrPending(job, t)
  {
    TracksMeans(start, job);
    LiveView(job.world, t);
    ConcludedView(job, migration, up, after, t);
    assert Share(after.entries, t) ==
      if t in job.touched && IsLive(job.world.stored, t) then Expected(job.world.stored, t)
      else Share(job.world.entries, t);
  }

  /** Every table whose index was as it should be has it so after a migration that succeeded. */
  lemma SuccessIsCurrent(before: World, migration: string, ops: seq<Operation>, up: bool,
                         mentions: (string, string) -> bool, after: World, t: string)
    requires IsStart(before) && IsFinished(before, migration, ops, up, mentions, after) && IsCurrent(before, t)
    ensures IsCurrent(after, t)
  {
    var run := Ran(ops, Fresh(before), mentions);
    FreshTracks(before);
    RanTracks(before.stored, Fresh(before), ops, mentions);
    RanPending(before.stored, ops, Fresh(before), mentions, t);
    ConcludedCurrent(before.stored, run.job, migration, up, after, t);
  }

  // ----- A storage that answers

  lemma {:induction false} RowsAnswered(w: World, table: string, schema: Schema, channel: nat, edits: seq<Edit>)
    requires channel in w.stored.channels && w.fuse == None
    ensures RowsWritten(w, table, schema, channel, edits).error != Some(Interrupted)
  {
    RowsWrittenTable(w, table, schema, channel, edits);
  }

  lemma MappedAnswered(op: Operation, job: Job)
    requires IsHoused(job.world.stored.project, job.world.stored.channels) && job.world.fuse == None
    ensures RowsMapped(op, job).job.world.fuse == None && RowsMapped(op, job).error != Some(Interrupted)
  {
    var s := job.world.stored;
    if op.table in s.project.live && op.table in s.schemas {
      var c := s.project.live[op.table];
      assert op.table in Homes(s.project) && Homes(s.project)[op.table] == c;
      RowsMappedNear(op, job);
      if MappedRows(op, s.channels[c]).Some? {
        var edits := InOrder(MappedRows(op, s.channels[c]).value);
        RowsAnswered(Called(job.world), op.table, NextDefinition(op, s.schemas[op.table]).schema, c, edits);
      }
    }
  }

  lemma LookedAnswered(t: string, job: Job)
    requires IsHoused(job.world.stored.project, job.world.stored.channels) && job.world.fuse == None
    ensures Looked(t, job).job.world.fuse == None && Looked(t, job).error != Some(Interrupted)
    ensures Looked(t, job).job.world.stored == job.world.stored
  {
    var p := job.world.stored.project;
    assert t in p.live ==> t in Homes(p) && Homes(p)[t] == p.live[t];
  }

  /** When no call throws, no operation is interrupted. */
  lemma OperatedAnswered(op: Operation, job: Job, mentions: (string, string) -> bool)
    requires IsHoused(job.world.stored.project, job.world.stored.channels) && job.world.fuse == None
    ensures Operated(op, job, mentions).job.world.fuse == None && Operated(op, job, mentions).error != Some(Interrupted)
  {
    if Objection(op, job.world.stored.schemas, mentions) == None {
      if op.CreateTable? {
        CreatedAnswered(op, job);
      } else if op.DropTable? {
        LookedAnswered(op.table, job);
        ArchivedAnswered(op, Looked(op.table, job).job);
      } else if Looks(op) {
        RewrittenAnswered(op, job);
      } else {
        RedefinedAnswered(op, job);
      }
    }
  }

  lemma CreatedAnswered(op: Operation, job: Job)
    requires op.CreateTable? && job.world.fuse == None
    ensures Revived(op, job).job.world.fuse == None && Revived(op, job).error == None
    ensures Founded(op, job).job.world.fuse == None && Founded(op, job).error != Some(Interrupted)
  {
  }

  lemma ArchivedAnswered(op: Operation, job: Job)
    requires op.DropTable? && job.world.fuse == None
    ensures Archived(op, job).job.world.fuse == None && Archived(op, job).error == None
  {
  }

  lemma RedefinedAnswered(op: Operation, job: Job)
    requires job.world.fuse == None
    ensures Redefined(op, job).job.world.fuse == None && Redefined(op, job).error != Some(Interrupted)
  {
  }

  lemma RewrittenAnswered(op: Operation, job: Job)
    requires IsHoused(job.world.stored.project, job.world.stored.channels) && job.world.fuse == None
    ensures Rewritten(op, job).job.world.fuse == None && Rewritten(op, job).error != Some(Interrupted)
  {
    var looked := Looked(op.table, job);
    LookedAnswered(op.table, job);
    if looked.error == None && !LacksBackfill(op) {
      MappedAnswered(op, looked.job);
      RedefinedAnswered(op, looked.job);
      RedefinedAnswered(op, RowsMapped(op, looked.job).job);
    }
  }

  lemma {:induction false} RanAnswered(start: Stored, ops: seq<Operation>, job: Job, mentions: (string, string) -> bool)
    requires Tracks(start, job) && job.world.fuse == None
    ensures Ran(ops, job, mentions).job.world.fuse == None && Ran(ops, job, mentions).error != Some(Interrupted)
    decreases |ops|
  {
    if ops != [] {
      TracksMeans(start, job);
      OperatedAnswered(ops[0], job, mentions);
      OperatedTracks(start, job, ops[0], mentions);
      RanAnswered(start, ops[1..], Operated(ops[0], job, mentions).job, mentions);
    }
  }

  /** On a storage that answers, a migration fails exactly when one of its operations is refused. */
  lemma AnsweredOutcome(before: World, migration: string, ops: seq<Operation>, up: bool,
                        mentions: (string, string) -> bool, error: Option<MigrationError>, last: Job, after: World)
    requires IsStart(before) && before.fuse == None
    requires IsExecuted(before, migration, ops, up, mentions, error, last, after)
    ensures error == Ran(ops, Fresh(before), mentions).error && error != Some(Interrupted)
    ensures error.Some? ==> last == Ran(ops, Fresh(before), mentions).job
  {
    FreshTracks(before);
    RanAnswered(before.stored, ops, Fresh(before), mentions);
  }

  // ----- Dropping a table and creating it again

  lemma {:induction false} RanSplit(a: seq<Operation>, b: seq<Operation>, job: Job, mentions: (string, string) -> bool)
    ensures Ran(a + b, job, mentions) ==
      if Ran(a, job, mentions).error.Some? then Ran(a, job, mentions) else Ran(b, Ran(a, job, mentions).job, mentions)
    decreases |a|
  {
    if a == [] {
      assert a + b == b;
    } else {
      assert (a + b)[1..] == a[1..] + b;
      RanSplit(a[1..], b, Operated(a[0], job, mentions).job, mentions);
    }
  }

  /** What a table looks like while it is dropped. */
  function DroppedLook(v: TableView): TableView {
    TableView(None, None, v.live, v.rows, {})
  }

  /** What a dropped table looks like once it has been created again. */
  function RecreatedLook(v: TableView, definition: Definition): TableView
    requires v.rows.Some?
  {
    TableView(Some(definition), v.archived, None, v.rows, TableKeys(definition.schema, v.rows.value))
  }

  lemma OwnDrop(t: string, job: Job, mentions: (string, string) -> bool)
    requires IsHoused(job.world.stored.project, job.world.stored.channels)
    requires Operated(DropTable(t), job, mentions).error == None
    ensures var o := Operated(DropTable(t), job, mentions).job;
      t in job.world.stored.project.live && ViewOf(o.world, t) == DroppedLook(ViewOf(job.world, t)) && t !in o.touched
  {
    var op := DropTable(t);
    var looked := Looked(t, job);
    MovedHomes(job.world.stored.project, op);
    LookedView(t, job, t);
    ShareOfWith(looked.job.world.entries, t, {}, t);
  }

  lemma OwnCreate(op: Operation, job: Job, mentions: (string, string) -> bool)
    requires IsHoused(job.world.stored.project, job.world.stored.channels)
    requires op.CreateTable? && op.table in job.world.stored.project.archived
    requires Operated(op, job, mentions).error == None
    ensures var o, v := Operated(op, job, mentions).job, ViewOf(job.world, op.table);
      && v.rows.Some? && op.table in o.touched
      && ViewOf(o.world, op.table) == TableView(Some(op.definition), v.archived, None, v.rows, v.keys)
  {
    assert op.table in Homes(job.world.stored.project);
    MovedHomes(job.world.stored.project, op);
  }

  /** The state in which the operation between two stretches that do not name its table is carried out. */
  lemma RanAround(start: Stored, pre: seq<Operation>, op: Operation, post: seq<Operation>, job: Job,
                  mentions: (string, string) -> bool)
    requires Tracks(start, job) && !Names(pre, op.table) && !Names(post, op.table)
    requires Ran(pre + [op] + post, job, mentions).error == None
    ensures
      var mid, end := Ran(pre, job, mentions).job, Ran(pre + [op] + post, job, mentions).job;
      var o := Operated(op, mid, mentions);
      && Tracks(start, mid) && o.error == None
      && ViewOf(mid.world, op.table) == ViewOf(job.world, op.table) && SameNotes(mid, job, op.table)
      && Tracks(start, end) && ViewOf(end.world, op.table) == ViewOf(o.job.world, op.table)
      && SameNotes(end, o.job, op.table)
  {
    var mid := Ran(pre, job, mentions).job;
    RanSplit(pre + [op], post, job, mentions);
    RanSplit(pre, [op], job, mentions);
    assert [op][1..] == [];
    assert Ran([op], mid, mentions) == Operated(op, mid, mentions);
    RanView(start, pre, job, mentions, op.table);
    RanTracks(start, job, pre, mentions);
    OperatedTracks(start, mid, op, mentions);
    RanView(start, post, Operated(op, mid, mentions).job, mentions, op.table);
    RanTracks(start, Operated(op, mid, mentions).job, post, mentions);
  }

  lemma RanDrop(start: Stored, pre: seq<Operation>, t: string, post: seq<Operation>, job: Job,
                mentions: (string, string) -> bool)
    requires Tracks(start, job) && !Names(pre, t) && !Names(post, t)
    requires Ran(pre + [DropTable(t)] + post, job, mentions).error == None
    ensures var end := Ran(pre + [DropTable(t)] + post, job, mentions).job;
      && Tracks(start, end) && ViewOf(job.world, t).live.Some?
      && ViewOf(end.world, t) == DroppedLook(ViewOf(job.world, t)) && t !in end.touched
  {
    var op := DropTable(t);
    RanAround(start, pre, op, post, job, mentions);
    var mid := Ran(pre, job, mentions).job;
    TracksMeans(start, mid);
    OwnDrop(t, mid, mentions);
    assert ViewOf(mid.world, t).live.Some?;
  }

  lemma RanCreate(start: Stored, pre: seq<Operation>, op: Operation, post: seq<Operation>, job: Job,
                  mentions: (string, string) -> bool)
    requires Tracks(start, job) && op.CreateTable? && !Names(pre, op.table) && !Names(post, op.table)
    requires Ran(pre + [op] + post, job, mentions).error == None && ViewOf(job.world, op.table).archived.Some?
    ensures var end, v := Ran(pre + [op] + post, job, mentions).job, ViewOf(job.world, op.table);
      && Tracks(start, end) && v.rows.Some? && op.table in end.touched
      && ViewOf(end.world, op.table) == TableView(Some(op.definition), v.archived, None, v.rows, v.keys)
  {
    RanAround(start, pre, op, post, job, mentions);
    var mid := Ran(pre, job, mentions).job;
    TracksMeans(start, mid);
    assert ViewOf(mid.world, op.table).archived.Some?;
    OwnCreate(op, mid, mentions);
  }

  /** The rebuild fills the index of a table that is live. */
  lemma RebuiltView(start: Stored, job: Job, migration: string, up: bool, after: World, t: string)
    requires Tracks(start, job) && IsConcluded(job, migration, up, after)
    ensures ViewOf(after, t) ==
      var v := ViewOf(job.world, t);
      if t in job.touched && IsLiveView(v) then v.(keys := ExpectedOf(v)) else v
  {
    TracksMeans(start, job);
    LiveView(job.world, t);
    ConcludedView(job, migration, up, after, t);
    assert Share(after.entries, t) ==
      if t in job.touched && IsLive(job.world.stored, t) then Expected(job.world.stored, t)
      else Share(job.world.entries, t);
  }

  /** A migration that drops a table keeps its channel and its rows. */
  lemma DropKeepsRows(before: World, migration: string, pre: seq<Operation>, t: string, post: seq<Operation>, up: bool,
                      mentions: (string, string) -> bool, after: World)
    requires IsStart(before) && !Names(pre, t) && !Names(post, t)
    requires IsFinished(before, migration, pre + [DropTable(t)] + post, up, mentions, after)
    ensures ViewOf(before, t).live.Some? && ViewOf(after, t) == DroppedLook(ViewOf(before, t))
  {
    FreshTracks(before);
    RanDrop(before.stored, pre, t, post, Fresh(before), mentions);
    RebuiltView(before.stored, Ran(pre + [DropTable(t)] + post, Fresh(before), mentions).job, migration, up, after, t);
  }

  /** A migration that creates a dropped table takes up its channel, with its rows, and indexes them. */
  lemma CreateFindsRows(before: World, migration: string, pre: seq<Operation>, op: Operation, post: seq<Operation>,
                        up: bool, mentions: (string, string) -> bool, after: World)
    requires IsStart(before) && op.CreateTable? && !Names(pre, op.table) && !Names(post, op.table)
    requires IsFinished(before, migration, pre + [op] + post, up, mentions, after)
    requires ViewOf(before, op.table).archived.Some?
    ensures ViewOf(before, op.table).rows.Some?
    ensures ViewOf(after, op.table) == RecreatedLook(ViewOf(before, op.table), op.definition)
  {
    FreshTracks(before);
    RanCreate(before.stored, pre, op, post, Fresh(before), mentions);
    RebuiltView(before.stored, Ran(pre + [op] + post, Fresh(before), mentions).job, migration, up, after, op.table);
  }

  /**
   * Dropping a table in one migration and creating it again in a later one brings back its channel and its rows, and
   * the index entries of these rows; with the old schema, all is as it was. In between, any number of migrations that
   * do not name the table may have succeeded or failed: by `OthersStay` they leave its view alone.
   */
  lemma DropThenCreateLater(w0: World, drop: string, pre: seq<Operation>, t: string, post: seq<Operation>, w1: World,
                            w2: World, create: string, pre': seq<Operation>, definition: Definition,
                            post': seq<Operation>, w3: World, mentions: (string, string) -> bool)
    requires IsStart(w0) && !Names(pre, t) && !Names(post, t) && !Names(pre', t) && !Names(post', t)
    requires IsFinished(w0, drop, pre + [DropTable(t)] + post, true, mentions, w1)
    requires IsStart(w2) && ViewOf(w2, t) == ViewOf(w1, t)
    requires IsFinished(w2, create, pre' + [CreateTable(t, definition)] + post', true, mentions, w3)
    ensures var v := ViewOf(w0, t);
      && v.rows.Some?
      && ViewOf(w3, t) == v.(definition := Some(definition), keys := TableKeys(definition.schema, v.rows.value))
      && (v.definition == Some(definition) && IsCurrent(w0, t) ==> ViewOf(w3, t) == v)
  {
    DropKeepsRows(w0, drop, pre, t, post, true, mentions, w1);
    CreateFindsRows(w2, create, pre', CreateTable(t, definition), post', true, mentions, w3);
    LiveIsNotArchived(w0, t);
  }

  /** The same within one migration. */
  lemma DropThenCreate(before: World, migration: string, pre: seq<Operation>, t: string, mid: seq<Operation>,
                       definition: Definition, post: seq<Operation>, up: bool, mentions: (string, string) -> bool,
                       after: World)
    requires IsStart(before) && !Names(pre, t) && !Names(mid, t) && !Names(post, t)
    requires IsFinished(before, migration, pre + [DropTable(t)] + mid + ([CreateTable(t, definition)] + post), up,
                        mentions, after)
    ensures var v := ViewOf(before, t);
      && v.rows.Some?
      && ViewOf(after, t) == v.(definition := Some(definition), keys := TableKeys(definition.schema, v.rows.value))
      && (v.definition == Some(definition) && IsCurrent(before, t) ==> ViewOf(after, t) == v)
  {
    var job, op, first := Fresh(before), CreateTable(t, definition), pre + [DropTable(t)] + mid;
    FreshTracks(before);
    RanSplit(first, [op] + post, job, mentions);
    RanDrop(before.stored, pre, t, mid, job, mentions);
    var dropped := Ran(first, job, mentions).job;
    assert [] + [op] + post == [op] + post;
    RanCreate(before.stored, [], op, post, dropped, mentions);
    RebuiltView(before.stored, Ran([op] + post, dropped, mentions).job, migration, up, after, t);
    LiveIsNotArchived(before, t);
  }

  lemma LiveIsNotArchived(w: World, t: string)
    requires IsStart(w) && ViewOf(w, t).live.Some?
    ensures ViewOf(w, t).archived == None
  {
  }

  /**
   * On a storage that answers, the two operations on their own succeed unless the schema indexes an encrypted column.
   */
  lemma DropThenCreateSucceeds(before: World, migration: string, t: string, definition: Definition, up: bool,
                               mentions: (string, string) -> bool, error: Option<MigrationError>, last: Job,
                               after: World)
    requires IsStart(before) && before.fuse == None && t in before.stored.schemas && t in before.stored.project.live
    requires IsExecuted(before, migration, [DropTable(t), CreateTable(t, definition)], up, mentions, error, last, after)
    ensures error == None <==> !HasEncryptedIndex(definition.schema)
  {
    var ops, job := [DropTable(t), CreateTable(t, definition)], Fresh(before);
    var p := before.stored.project;
    assert t in Homes(p) && Homes(p)[t] == p.live[t];
    var o := Operated(ops[0], job, mentions);
    assert o.error == None;
    assert ops[1..] == [ops[1]] && [ops[1]][1..] == [];
    assert Operated(ops[1], o.job, mentions).error == None <==> !HasEncryptedIndex(definition.schema);
    assert Ran([ops[1]], o.job, mentions).error == Operated(ops[1], o.job, mentions).error;
    assert Ran(ops, job, mentions) == Ran(ops[1..], o.job, mentions);
    AnsweredOutcome(before, migration, ops, up, mentions, error, last, after);
  }
}
