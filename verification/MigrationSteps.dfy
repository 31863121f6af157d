/**
 * A migration as a function on values, call by call: what each operation does to the project, the schemas, the rows
 * and the index, and where it stops when an operation is refused or a call of the storage throws.
 */
module MigrationSteps {
  import opened Wrappers
  import opened Rows
  import opened Tables
  import opened QueryEngine
  import opened Migrations

  /** The stored state, with the schema channel as the schemas it stands for. */
  datatype Stored = Stored(project: Project, schemas: map<string, Definition>, channels: map<nat, map<nat, Row>>)

  /**
   * All that a migration can change. `fuse` says how many more calls of the storage, of Redis and of the index succeed
   * before one throws; `None` when none will. After that one they succeed again.
   */
  datatype World = World(stored: Stored, history: set<string>, entries: set<Entry>, nextChannel: nat, fuse: Option<nat>)

  datatype Snapshot = Snapshot(definition: Definition, rows: map<nat, Row>)

  /** What a migration remembers for the case of a failure: the tables it saw first, and the channels it made. */
  datatype Ledger = Ledger(snapshots: map<string, Snapshot>, created: map<string, nat>)

  const BLANK := Ledger(map[], map[])

  /** A migration under way. */
  datatype Job = Job(world: World, ledger: Ledger, touched: set<string>)

  /** After a call, and after an operation: why it failed, if it did. */
  datatype Reply = Reply(world: World, error: Option<MigrationError>)
  datatype Outcome = Outcome(job: Job, error: Option<MigrationError>)

  predicate Breaks(w: World) {
    w.fuse == Some(0)
  }

  function Called(w: World): World {
    w.(fuse := if w.fuse.Some? && w.fuse.value > 0 then Some(w.fuse.value - 1) else None)
  }

  /** The index with the entries of one table replaced. */
  function WithShare(entries: set<Entry>, table: string, keys: set<IndexKey>): set<Entry> {
    (set e | e in entries && e.table != table) + (set k | k in keys :: Entry(table, k))
  }

  function ProjectSaved(w: World, p: Project): Reply {
    if Breaks(w) then Reply(Called(w), Some(Interrupted))
    else Reply(Called(w).(stored := w.stored.(project := p)), None)
  }

  function EventSent(w: World, event: SchemaEvent): Reply {
    if Breaks(w) then Reply(Called(w), Some(Interrupted))
    else Reply(Called(w).(stored := w.stored.(schemas := After(w.stored.schemas, event)),
                          history := AppliedAfter(w.history, event)), None)
  }

  function IndexDropped(w: World, table: string): Reply {
    if Breaks(w) then Reply(Called(w), Some(Interrupted))
    else Reply(Called(w).(entries := WithShare(w.entries, table, {})), None)
  }

  function ChannelMade(w: World): Reply {
    if Breaks(w) then Reply(Called(w), Some(Interrupted))
    else Reply(Called(w).(stored := w.stored.(channels := w.stored.channels[w.nextChannel := map[]]),
                          nextChannel := w.nextChannel + 1), None)
  }

  function ChannelDeleted(w: World, channel: nat): Reply {
    if Breaks(w) then Reply(Called(w), Some(Interrupted))
    else Reply(Called(w).(stored := w.stored.(channels := w.stored.channels - {channel})), None)
  }

  // ----- Rows

  function TableAt(w: World, table: string, channel: nat): Table
    requires channel in w.stored.channels
  {
    Table(w.stored.channels[channel], Share(w.entries, table))
  }

  function RowEdited(w: World, channel: nat, edit: Edit): World
    requires channel in w.stored.channels
  {
    var rows: map<nat, Row> := w.stored.channels[channel][edit.id := edit.row];
    w.(stored := w.stored.(channels := w.stored.channels[channel := rows]))
  }

  function RowIndexed(w: World, table: string, schema: Schema, edit: Edit): Reply {
    if KeysOf(schema, edit.id, edit.row) == {} then Reply(w, None)
    else if Breaks(w) then Reply(Called(w), Some(Interrupted))
    else
      var keys := Reindexed(schema, Share(w.entries, table), edit.id, edit.row);
      Reply(Called(w).(entries := WithShare(w.entries, table, keys)), None)
  }

  /** One row of `replaceRows`: checked, edited, and then indexed. */
  function RowWritten(w: World, table: string, schema: Schema, channel: nat, edit: Edit): (r: Reply)
    requires channel in w.stored.channels
    ensures r.world.stored.channels.Keys == w.stored.channels.Keys
  {
    if Breaks(w) then Reply(Called(w), Some(Interrupted)) else
    var refusal := Refusal(schema, TableAt(w, table, channel), edit.row, Some(edit.id));
    if refusal.Some? then Reply(Called(w), Some(Refused(refusal.value)))
    else if edit.id !in w.stored.channels[channel] then Reply(Called(w), Some(Refused(NotFound)))
    else RowIndexed(RowEdited(Called(w), channel, edit), table, schema, edit)
  }

  function RowsWritten(w: World, table: string, schema: Schema, channel: nat, edits: seq<Edit>): (r: Reply)
    requires channel in w.stored.channels
    ensures r.world.stored.channels.Keys == w.stored.channels.Keys
    decreases |edits|
  {
    if edits == [] then Reply(w, None) else
    var first := RowWritten(w, table, schema, channel, edits[0]);
    if first.error.Some? then first else RowsWritten(first.world, table, schema, channel, edits[1..])
  }

  // ----- Operations

  function WithWorld(job: Job, reply: Reply): Outcome {
    Outcome(job.(world := reply.world), reply.error)
  }

  function Touching(outcome: Outcome, table: string): Outcome {
    if outcome.error.Some? then outcome else outcome.(job := outcome.job.(touched := outcome.job.touched + {table}))
  }

  /** The storage holds the channel, and answers. */
  predicate Reads(w: World, channel: nat) {
    !Breaks(w) && channel in w.stored.channels
  }

  /** `snapshotTable`: only the first look at a table is kept. */
  function Looked(table: string, job: Job): Outcome {
    var s := job.world.stored;
    if table !in s.project.live || table !in s.schemas then Outcome(job, Some(Missing))
    else if table in job.ledger.snapshots then Outcome(job, None)
    else if !Reads(job.world, s.project.live[table]) then Outcome(job.(world := Called(job.world)), Some(Interrupted))
    else
      var snapshot := Snapshot(s.schemas[table], s.channels[s.project.live[table]]);
      Outcome(job.(world := Called(job.world),
                   ledger := job.ledger.(snapshots := job.ledger.snapshots[table := snapshot])), None)
  }

  /** A dropped table comes back with its channel. */
  function Revived(op: Operation, job: Job): Outcome
    requires op.CreateTable?
  {
    var saved := ProjectSaved(job.world, Relocated(job.world.stored.project, op, 0));
    if saved.error.Some? then WithWorld(job, saved)
    else Touching(WithWorld(job, EventSent(saved.world, Saved(op.table, op.definition))), op.table)
  }

  /** `addTable`: the channel is created first; when what follows fails, it is left behind. */
  function TableAdded(w: World, table: string, definition: Definition): Reply {
    var p := w.stored.project;
    if table in p.live then Reply(w, Some(Conflict)) else
    var made := ChannelMade(w);
    if made.error.Some? then made else
    var saved := ProjectSaved(made.world, Project(p.live[table := w.nextChannel], p.archived));
    if saved.error.Some? then saved else EventSent(saved.world, Saved(table, definition))
  }

  function Founded(op: Operation, job: Job): Outcome
    requires op.CreateTable?
  {
    var added := TableAdded(job.world, op.table, op.definition);
    if added.error.Some? then WithWorld(job, added)
    else
      var created := job.ledger.created[op.table := job.world.nextChannel];
      Outcome(Job(added.world, job.ledger.(created := created), job.touched + {op.table}), None)
  }

  /** The channel of a dropped table is kept, its schema and its index are not. */
  function Archived(op: Operation, job: Job): Outcome
    requires op.DropTable?
  {
    var saved := ProjectSaved(job.world, Relocated(job.world.stored.project, op, 0));
    if saved.error.Some? then WithWorld(job, saved) else
    var sent := EventSent(saved.world, Removed(op.table));
    if sent.error.Some? then WithWorld(job, sent) else
    var dropped := IndexDropped(sent.world, op.table);
    if dropped.error.Some? then WithWorld(job, dropped)
    else Outcome(Job(dropped.world, job.ledger, job.touched - {op.table}), None)
  }

  function Dropped(op: Operation, job: Job): Outcome
    requires op.DropTable?
  {
    var looked := Looked(op.table, job);
    if looked.error.Some? then looked else Archived(op, looked.job)
  }

  /** A new definition is saved. */
  function Redefined(op: Operation, job: Job): Outcome {
    if op.table !in job.world.stored.schemas then Outcome(job, Some(Missing)) else
    var sent := WithWorld(job,
                          EventSent(job.world,
                                    Saved(op.table, NextDefinition(op, job.world.stored.schemas[op.table]))));
    if op.ReplacePolicies? then sent else Touching(sent, op.table)
  }

  /** All rows are read and mapped, and only then written back under the new schema. */
  ghost function RowsMapped(op: Operation, job: Job): Outcome {
    var s := job.world.stored;
    if op.table !in s.project.live || op.table !in s.schemas then Outcome(job, Some(Missing)) else
    var channel := s.project.live[op.table];
    if !Reads(job.world, channel) then Outcome(job.(world := Called(job.world)), Some(Interrupted)) else
    var mapped := MappedRows(op, s.channels[channel]);
    if mapped == None then Outcome(job.(world := Called(job.world)), Some(Invalid))
    else
      var schema := NextDefinition(op, s.schemas[op.table]).schema;
      WithWorld(job, RowsWritten(Called(job.world), op.table, schema, channel, InOrder(mapped.value)))
  }

  /** `add_column`, `remove_column`, `rename_column` and `change_column_type`. */
  ghost function Rewritten(op: Operation, job: Job): Outcome {
    var looked := Looked(op.table, job);
    if looked.error.Some? then looked
    else if LacksBackfill(op) then Outcome(looked.job, Some(Invalid))
    else if !RewritesRows(op) then Redefined(op, looked.job)
    else
      var mapped := RowsMapped(op, looked.job);
      if mapped.error.Some? then mapped else Redefined(op, mapped.job)
  }

  ghost function Operated(op: Operation, job: Job, mentions: (string, string) -> bool): Outcome {
    var objection := Objection(op, job.world.stored.schemas, mentions);
    if objection.Some? then Outcome(job, objection)
    else if op.CreateTable? then
      if op.table in job.world.stored.project.archived then Revived(op, job) else Founded(op, job)
    else if op.DropTable? then Dropped(op, job)
    else if op.AddIndex? || op.RemoveIndex? || op.ReplacePolicies? then Redefined(op, job)
    else Rewritten(op, job)
  }

  /** The loop over the operations, up to the first error. */
  ghost function Ran(ops: seq<Operation>, job: Job, mentions: (string, string) -> bool): Outcome
    decreases |ops|
  {
    if ops == [] then Outcome(job, None) else
    var first := Operated(ops[0], job, mentions);
    if first.error.Some? then first else Ran(ops[1..], first.job, mentions)
  }

  /** A migration as it begins. */
  function Fresh(w: World): Job {
    Job(w, BLANK, {})
  }

  // ----- The end of a migration

  /** A table whose index a rebuild fills. */
  predicate IsLive(s: Stored, table: string) {
    table in s.schemas && table in s.project.live && s.project.live[table] in s.channels
  }

  /** The index entries a table should have: those of its rows when it is live, none otherwise. */
  function Expected(s: Stored, table: string): set<IndexKey> {
    if IsLive(s, table) then TableKeys(s.schemas[table].schema, s.channels[s.project.live[table]]) else {}
  }

  /** The touched tables have their indexes rebuilt, and the migration is on record. */
  ghost predicate IsConcluded(job: Job, migration: string, up: bool, after: World) {
    && after.stored == job.world.stored && after.nextChannel == job.world.nextChannel
    && after.history == AppliedAfter(job.world.history, History(migration, up))
    && forall t {:trigger Share(after.entries, t)} :: Share(after.entries, t) ==
         if t in job.touched && IsLive(job.world.stored, t) then Expected(job.world.stored, t)
         else Share(job.world.entries, t)
  }

  /** The channel of every table, live or dropped. */
  function Homes(p: Project): map<string, nat> {
    p.live + p.archived
  }

  function At<T>(m: map<string, T>, key: string): Option<T> {
    if key in m then Some(m[key]) else None
  }

  /** What `restoreProjectState` makes of a table that was there when the migration began. */
  ghost function RestoredTable(ledger: Ledger, last: World, t: string, channel: nat): Table
    requires channel in last.stored.channels
  {
    if t in ledger.snapshots then
      ReplacedAll(ledger.snapshots[t].definition.schema, TableAt(last, t, channel), InOrder(ledger.snapshots[t].rows))
    else TableAt(last, t, channel)
  }

  /** The definition of a table after `restoreProjectState`. */
  function ReturnedAt(original: Project, last: Job, t: string): Option<Definition> {
    if t in last.ledger.created && t !in Homes(original) then None
    else if t in last.ledger.snapshots && t in Homes(original) then Some(last.ledger.snapshots[t].definition)
    else At(last.world.stored.schemas, t)
  }

  /** The state after a migration that stopped as `last` has been given up, on a storage that answers again. */
  ghost predicate IsGivenUp(original: Project, last: Job, after: World) {
    && after.stored.project == original && after.history == last.world.history
    && after.nextChannel == last.world.nextChannel
    && (forall t {:trigger At(after.stored.schemas, t)} :: At(after.stored.schemas, t) == ReturnedAt(original, last, t))
    && (forall t {:trigger IsTableGivenUp(original, last, after, t)} :: IsTableGivenUp(original, last, after, t))
    && after.stored.channels.Keys == last.world.stored.channels.Keys - UndoneChannels(original, last.ledger)
  }

  ghost predicate IsTableGivenUp(original: Project, last: Job, after: World, t: string) {
    if t in Homes(original) then
      var c := Homes(original)[t];
      && c in after.stored.channels && c in last.world.stored.channels
      && TableAt(after, t, c) == RestoredTable(last.ledger, last.world, t, c)
    else
      Share(after.entries, t) == if t in last.ledger.created then {} else Share(last.world.entries, t)
  }

  ghost function UndoneChannels(original: Project, ledger: Ledger): set<nat> {
    set t | t in ledger.created && t !in Homes(original) :: ledger.created[t]
  }

  /**
   * The call of `restoreProjectState` that throws, if one does. When the channel maps cannot be saved nothing is
   * restored; any other error is swallowed, and costs what that call was for.
   */
  datatype Lapse =
    | NoLapse
    | ProjectLapse
    | RowsLapse(table: string)
    | SchemaLapse(table: string)
    | ChannelLapse(table: string)
    | IndexLapse(table: string)
    | RemovalLapse(table: string)

  /** The rows are written up to some point, the last one perhaps without its index entries. */
  ghost predicate IsHalfWritten(schema: Schema, t: Table, edits: seq<Edit>, after: Table)
    decreases |edits|
  {
    after == t
    || (edits != [] && edits[0].id in t.rows && Refusal(schema, t, edits[0].row, Some(edits[0].id)) == None
        && (after == Table(t.rows[edits[0].id := edits[0].row], t.index)
            || IsHalfWritten(schema, Written(schema, t, edits[0].id, edits[0].row), edits[1..], after)))
  }

  /** The call was made: the table was looked at, or made, by the migration. */
  predicate IsPossible(original: Project, ledger: Ledger, lapse: Lapse) {
    match lapse
    case NoLapse => true
    case ProjectLapse => true
    case RowsLapse(t) => t in ledger.snapshots && t in Homes(original)
    case SchemaLapse(t) => t in ledger.snapshots && t in Homes(original)
    case ChannelLapse(t) => t in ledger.created && t !in Homes(original)
    case IndexLapse(t) => t in ledger.created && t !in Homes(original)
    case RemovalLapse(t) => t in ledger.created && t !in Homes(original)
  }

  ghost predicate IsTableGivenUpBut(original: Project, last: Job, lapse: Lapse, after: World, t: string) {
    if lapse == RowsLapse(t) && t in Homes(original) && t in last.ledger.snapshots then
      var c, snapshot := Homes(original)[t], last.ledger.snapshots[t];
      && c in after.stored.channels && c in last.world.stored.channels
      && IsHalfWritten(snapshot.definition.schema, TableAt(last.world, t, c), InOrder(snapshot.rows),
                       TableAt(after, t, c))
    else if lapse == IndexLapse(t) then Share(after.entries, t) == Share(last.world.entries, t)
    else IsTableGivenUp(original, last, after, t)
  }

  /** The state after a migration has been given up while one call of the way back, or none, threw. */
  ghost predicate IsGivenUpBut(original: Project, last: Job, lapse: Lapse, after: World) {
    if lapse == ProjectLapse then after == last.world.(fuse := None)
    else
      && IsPossible(original, last.ledger, lapse)
      && after.stored.project == original && after.history == last.world.history
      && after.nextChannel == last.world.nextChannel
      && (forall t {:trigger At(after.stored.schemas, t)} :: At(after.stored.schemas, t) ==
            if lapse == SchemaLapse(t) || lapse == RemovalLapse(t) then At(last.world.stored.schemas, t)
            else ReturnedAt(original, last, t))
      && (forall t {:trigger IsTableGivenUpBut(original, last, lapse, after, t)} ::
            IsTableGivenUpBut(original, last, lapse, after, t))
      && after.stored.channels.Keys == last.world.stored.channels.Keys - UndoneChannelsBut(original, last.ledger, lapse)
  }

  ghost function UndoneChannelsBut(original: Project, ledger: Ledger, lapse: Lapse): set<nat> {
    set t | t in ledger.created && t !in Homes(original) && lapse != ChannelLapse(t) :: ledger.created[t]
  }

  /** The indexes of the touched tables are as they were, emptied or filled, the others as they were. */
  ghost predicate ArePartlyRebuilt(job: Job, entries: set<Entry>) {
    forall t {:trigger Share(entries, t)} ::
      || Share(entries, t) == Share(job.world.entries, t)
      || (t in job.touched && (Share(entries, t) == {} || Share(entries, t) == Expected(job.world.stored, t)))
  }

  /** The migration took effect as a whole. */
  ghost predicate IsFinished(before: World, migration: string, ops: seq<Operation>, up: bool,
                             mentions: (string, string) -> bool, after: World)
  {
    var run := Ran(ops, Fresh(before), mentions);
    run.error == None && IsConcluded(run.job, migration, up, after)
  }

  /**
   * The migration stopped in the state `last`: at the operation that failed, or, when a call threw, while the indexes
   * of the touched tables were being rebuilt.
   */
  ghost predicate IsStopped(before: World, ops: seq<Operation>, mentions: (string, string) -> bool,
                            error: MigrationError, last: Job)
  {
    var run := Ran(ops, Fresh(before), mentions);
    if run.error.Some? then error == run.error.value && last == run.job
    else
      && error == Interrupted && run.job.world.fuse.Some?
      && last.world.stored == run.job.world.stored && last.world.history == run.job.world.history
      && last.world.nextChannel == run.job.world.nextChannel && last.ledger == run.job.ledger
      && ArePartlyRebuilt(run.job, last.world.entries)
  }

  /** One call of `executeMigration`: what it answers, the state in which it stopped, and what it leaves. */
  ghost predicate IsExecuted(before: World, migration: string, ops: seq<Operation>, up: bool,
                             mentions: (string, string) -> bool, error: Option<MigrationError>, last: Job, after: World)
  {
    if error == None then IsFinished(before, migration, ops, up, mentions, after)
    else IsStopped(before, ops, mentions, error.value, last) && IsGivenUp(before.stored.project, last, after)
  }

  /**
   * One call of `executeMigration` when a call of its way back may throw as well; if it is the first one, its error is
   * answered instead of the reason why the migration stopped.
   */
  ghost predicate IsExecutedBut(before: World, migration: string, ops: seq<Operation>, up: bool,
                                mentions: (string, string) -> bool, error: Option<MigrationError>,
                                reason: MigrationError, last: Job, lapse: Lapse, after: World)
  {
    if error == None then lapse == NoLapse && IsFinished(before, migration, ops, up, mentions, after)
    else
      && error.value == (if lapse == ProjectLapse then Interrupted else reason)
      && IsStopped(before, ops, mentions, reason, last) && IsGivenUpBut(before.stored.project, last, lapse, after)
  }

  /** Every table but some has the index entries it had. */
  ghost predicate OthersKept(before: set<Entry>, after: set<Entry>, tables: set<string>) {
    forall other {:trigger Share(after, other)} {:trigger Share(before, other)} ::
      other !in tables ==> Share(after, other) == Share(before, other)
  }
}
