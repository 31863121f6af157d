/** What every state of a migration keeps of the state it began in, and what giving it up brings back. */
module Recovery {
  import opened Wrappers
  import opened Rows
  import opened Tables
  import opened QueryEngine
  import opened Migrations
  import opened MigrationSteps

  // ----- Writing rows touches one channel and one table's index

  lemma ShareOfWith(entries: set<Entry>, table: string, keys: set<IndexKey>, other: string)
    ensures Share(WithShare(entries, table, keys), other) == if other == table then keys else Share(entries, other)
  {
    var after := WithShare(entries, table, keys);
    forall k
      ensures k in Share(after, other) <==> k in if other == table then keys else Share(entries, other)
    {
      assert k in Share(after, other) <==> Entry(other, k) in after;
      assert k in Share(entries, other) <==> Entry(other, k) in entries;
    }
  }

  /** Two states of one write: all but the rows of a channel and the index of a table is the same. */
  ghost predicate IsNear(before: World, after: World, table: string, channel: nat) {
    && after.stored.project == before.stored.project && after.stored.schemas == before.stored.schemas
    && after.history == before.history && after.nextChannel == before.nextChannel
    && after.stored.channels.Keys == before.stored.channels.Keys
    && (channel in before.stored.channels ==>
            after.stored.channels[channel].Keys == before.stored.channels[channel].Keys)
    && (forall c :: c in before.stored.channels && c != channel ==>
            after.stored.channels[c] == before.stored.channels[c])
    && OthersKept(before.entries, after.entries, {table})
    && (before.fuse == None ==> after.fuse == None)
  }

  lemma WithShareKeepsOthers(entries: set<Entry>, table: string, keys: set<IndexKey>)
    ensures OthersKept(entries, WithShare(entries, table, keys), {table})
  {
    forall other | other !in {table}
      ensures Share(WithShare(entries, table, keys), other) == Share(entries, other)
    {
      ShareOfWith(entries, table, keys, other);
    }
  }

  lemma RowIndexedNear(w: World, table: string, schema: Schema, channel: nat, edit: Edit)
    ensures IsNear(w, RowIndexed(w, table, schema, edit).world, table, channel)
    ensures w.fuse == None ==>
      var r := RowIndexed(w, table, schema, edit);
      r.error == None && Share(r.world.entries, table) == Reindexed(schema, Share(w.entries, table), edit.id, edit.row)
  {
    var keys := Reindexed(schema, Share(w.entries, table), edit.id, edit.row);
    WithShareKeepsOthers(w.entries, table, keys);
    ShareOfWith(w.entries, table, keys, table);
  }

  lemma NearTrans(a: World, b: World, c: World, table: string, channel: nat)
    requires IsNear(a, b, table, channel) && IsNear(b, c, table, channel)
    ensures IsNear(a, c, table, channel)
  {
    forall other | other !in {table}
      ensures Share(c.entries, other) == Share(a.entries, other)
    {
      assert Share(c.entries, other) == Share(b.entries, other);
    }
  }

  lemma RowWrittenNear(w: World, table: string, schema: Schema, channel: nat, edit: Edit)
    requires channel in w.stored.channels
    ensures IsNear(w, RowWritten(w, table, schema, channel, edit).world, table, channel)
  {
    if !Breaks(w) && Refusal(schema, TableAt(w, table, channel), edit.row, Some(edit.id)) == None
       && edit.id in w.stored.channels[channel] {
      var edited := RowEdited(Called(w), channel, edit);
      assert IsNear(w, edited, table, channel);
      RowIndexedNear(edited, table, schema, channel, edit);
      NearTrans(w, edited, RowWritten(w, table, schema, channel, edit).world, table, channel);
    }
  }

  lemma {:induction false} RowsWrittenNear(w: World, table: string, schema: Schema, channel: nat, edits: seq<Edit>)
    requires channel in w.stored.channels
    ensures IsNear(w, RowsWritten(w, table, schema, channel, edits).world, table, channel)
    decreases |edits|
  {
    if edits != [] {
      var first := RowWritten(w, table, schema, channel, edits[0]);
      RowWrittenNear(w, table, schema, channel, edits[0]);
      if first.error == None {
        RowsWrittenNear(first.world, table, schema, channel, edits[1..]);
        NearTrans(w, first.world, RowsWritten(first.world, table, schema, channel, edits[1..]).world, table, channel);
      }
    }
  }

  /** How an error of the query engine reaches the migration. */
  function AsError(error: Option<Error>): Option<MigrationError> {
    if error.Some? then Some(Refused(error.value)) else None
  }

  lemma RowTable(w: World, table: string, schema: Schema, channel: nat, edit: Edit)
    requires channel in w.stored.channels
    ensures
      var r, t := RowWritten(w, table, schema, channel, edit), TableAt(w, table, channel);
      var refusal := Refusal(schema, t, edit.row, Some(edit.id));
      && (r.error == Some(Interrupted) ==>
              w.fuse.Some? && r.world.fuse == None
              && IsHalfWritten(schema, t, [edit], TableAt(r.world, table, channel)))
      && (r.error == None ==>
            && edit.id in t.rows && refusal == None
            && TableAt(r.world, table, channel) == Written(schema, t, edit.id, edit.row))
      && (r.error.Some? && r.error != Some(Interrupted) ==>
            && TableAt(r.world, table, channel) == t
            && r.error == AsError(if refusal.Some? then refusal else Some(NotFound))
            && (edit.id !in t.rows || refusal.Some?))
  {
    if !Breaks(w) && Refusal(schema, TableAt(w, table, channel), edit.row, Some(edit.id)) == None
       && edit.id in w.stored.channels[channel] {
      var edited := RowEdited(Called(w), channel, edit);
      ShareOfWith(edited.entries, table, Reindexed(schema, Share(w.entries, table), edit.id, edit.row), table);
    }
  }

  /**
   * Unless a call throws, the rows are written as the query engine's `ReplaceRows` writes them; if one does, up to some
   * point.
   */
  lemma {:induction false} RowsWrittenTable(w: World, table: string, schema: Schema, channel: nat, edits: seq<Edit>)
    requires channel in w.stored.channels
    ensures var r, t := RowsWritten(w, table, schema, channel, edits), TableAt(w, table, channel);
      if r.error == Some(Interrupted) then
        w.fuse.Some? && r.world.fuse == None && IsHalfWritten(schema, t, edits, TableAt(r.world, table, channel))
      else
        && TableAt(r.world, table, channel) == ReplacedAll(schema, t, edits)
        && r.error == AsError(ReplaceError(schema, t, edits))
    decreases |edits|
  {
    if edits != [] {
      var first := RowWritten(w, table, schema, channel, edits[0]);
      RowTable(w, table, schema, channel, edits[0]);
      assert [edits[0]][1..] == [];
      if first.error == None {
        FuseBurnsDown(w, table, schema, channel, edits[0]);
        RowsWrittenTable(first.world, table, schema, channel, edits[1..]);
      }
    }
  }

  lemma FuseBurnsDown(w: World, table: string, schema: Schema, channel: nat, edit: Edit)
    requires channel in w.stored.channels && RowWritten(w, table, schema, channel, edit).error == None
    ensures RowWritten(w, table, schema, channel, edit).world.fuse.Some? ==> w.fuse.Some?
  {
  }

  // ----- What every state of a migration keeps

  ghost predicate AreApart(homes: map<string, nat>) {
    forall t, u {:trigger homes[t], homes[u]} | t in homes && u in homes && t != u :: homes[t] != homes[u]
  }

  /** No table is both live and dropped, and every table has a channel of its own. */
  ghost predicate IsHoused(p: Project, channels: map<nat, map<nat, Row>>) {
    && p.live.Keys !! p.archived.Keys
    && (forall t | t in Homes(p) :: Homes(p)[t] in channels)
    && AreApart(Homes(p))
  }

  /** The tables of the start keep their channels, live or dropped. */
  ghost predicate KeepsHomes(start: Project, p: Project) {
    forall t | t in Homes(start) :: t in Homes(p) && Homes(p)[t] == Homes(start)[t]
  }

  /** A table of the start is as it was, or its first snapshot is. */
  ghost predicate IsRemembered(start: Stored, channels: map<nat, map<nat, Row>>, snapshots: map<string, Snapshot>,
                               t: string)
  {
    t in Homes(start.project) ==>
      var c := Homes(start.project)[t];
      && c in start.channels && c in channels && channels[c].Keys == start.channels[c].Keys
      && (if t in snapshots then snapshots[t].rows else channels[c]) == start.channels[c]
  }

  ghost predicate AreRemembered(start: Stored, channels: map<nat, map<nat, Row>>, snapshots: map<string, Snapshot>) {
    forall t {:trigger IsRemembered(start, channels, snapshots, t)} :: IsRemembered(start, channels, snapshots, t)
  }

  /** The channels the migration made are its own. */
  ghost predicate IsOwn(start: Stored, channels: map<nat, map<nat, Row>>, created: map<string, nat>) {
    && created.Keys !! Homes(start.project).Keys && AreApart(created)
    && forall t | t in created :: created[t] in channels && created[t] !in start.channels
  }

  ghost predicate IsBounded(channels: map<nat, map<nat, Row>>, nextChannel: nat) {
    forall c :: c in channels ==> c < nextChannel
  }

  /** What holds at every moment of a migration, also when a call throws. */
  datatype Aspect = Housed | Kept | Remembered | Own

  ghost predicate Holds(aspect: Aspect, start: Stored, p: Project, channels: map<nat, map<nat, Row>>, nextChannel: nat,
                        ledger: Ledger)
  {
    match aspect
    case Housed => IsHoused(p, channels) && IsBounded(channels, nextChannel)
    case Kept => KeepsHomes(start.project, p) && start.channels.Keys <= channels.Keys
    case Remembered => AreRemembered(start, channels, ledger.snapshots)
    case Own => IsOwn(start, channels, ledger.created) && ledger.created.Keys <= Homes(p).Keys
  }

  ghost predicate IsTracked(start: Stored, p: Project, channels: map<nat, map<nat, Row>>, nextChannel: nat,
                            ledger: Ledger)
  {
    forall aspect {:trigger Holds(aspect, start, p, channels, nextChannel, ledger)} ::
      Holds(aspect, start, p, channels, nextChannel, ledger)
  }

  ghost predicate Tracks(start: Stored, job: Job) {
    IsTracked(start, job.world.stored.project, job.world.stored.channels, job.world.nextChannel, job.ledger)
  }

  lemma TracksMeans(start: Stored, job: Job)
    ensures var p, channels := job.world.stored.project, job.world.stored.channels;
      Tracks(start, job) <==>
        && IsHoused(p, channels) && IsBounded(channels, job.world.nextChannel)
        && KeepsHomes(start.project, p) && start.channels.Keys <= channels.Keys
        && AreRemembered(start, channels, job.ledger.snapshots)
        && IsOwn(start, channels, job.ledger.created) && job.ledger.created.Keys <= Homes(p).Keys
  {
    var p, channels, next := job.world.stored.project, job.world.stored.channels, job.world.nextChannel;
    assert Tracks(start, job) ==>
      && Holds(Housed, start, p, channels, next, job.ledger) && Holds(Kept, start, p, channels, next, job.ledger)
      && Holds(Remembered, start, p, channels, next, job.ledger) && Holds(Own, start, p, channels, next, job.ledger);
  }

  lemma FreshTracks(w: World)
    requires IsHoused(w.stored.project, w.stored.channels) && IsBounded(w.stored.channels, w.nextChannel)
    ensures Tracks(w.stored, Fresh(w))
  {
    forall t
      ensures IsRemembered(w.stored, w.stored.channels, BLANK.snapshots, t)
    {
    }
    TracksMeans(w.stored, Fresh(w));
  }

  lemma LookTracks(start: Stored, job: Job, t: string)
    requires Tracks(start, job)
    ensures Tracks(start, Looked(t, job).job)
  {
    var looked := Looked(t, job);
    TracksMeans(start, job);
    if t in looked.job.ledger.snapshots && t !in job.ledger.snapshots {
      var p, channels := job.world.stored.project, job.world.stored.channels;
      assert t in Homes(p) && Homes(p)[t] == p.live[t];
      forall u
        ensures IsRemembered(start, channels, looked.job.ledger.snapshots, u)
      {
        assert IsRemembered(start, channels, job.ledger.snapshots, u);
      }
    }
    TracksMeans(start, looked.job);
  }

  /** A table that moves between the two maps keeps its channel. */
  lemma MovedHomes(p: Project, op: Operation)
    requires p.live.Keys !! p.archived.Keys
    requires (op.DropTable? && op.table in p.live) || (op.CreateTable? && op.table in p.archived)
    ensures Homes(Relocated(p, op, 0)) == Homes(p)
    ensures Relocated(p, op, 0).live.Keys !! Relocated(p, op, 0).archived.Keys
  {
  }

  lemma MoveTracks(start: Stored, job: Job, op: Operation)
    requires Tracks(start, job)
    requires
      var p := job.world.stored.project;
      (op.DropTable? && op.table in p.live) || (op.CreateTable? && op.table in p.archived)
    ensures Tracks(start, job.(world := ProjectSaved(job.world, Relocated(job.world.stored.project, op, 0)).world))
  {
    var after := job.(world := ProjectSaved(job.world, Relocated(job.world.stored.project, op, 0)).world);
    TracksMeans(start, job);
    TracksMeans(start, after);
    MovedHomes(job.world.stored.project, op);
  }

  lemma RowsTrack(start: Stored, job: Job, table: string, channel: nat, after: World)
    requires Tracks(start, job) && IsNear(job.world, after, table, channel)
    requires table in job.world.stored.project.live && job.world.stored.project.live[table] == channel
    requires table in job.ledger.snapshots
    ensures Tracks(start, job.(world := after))
  {
    var p := job.world.stored.project;
    TracksMeans(start, job);
    TracksMeans(start, job.(world := after));
    assert table in Homes(p) && Homes(p)[table] == channel;
    forall u
      ensures IsRemembered(start, after.stored.channels, job.ledger.snapshots, u)
    {
      assert IsRemembered(start, job.world.stored.channels, job.ledger.snapshots, u);
      if u in Homes(start.project) && u != table {
        assert Homes(p)[u] != Homes(p)[table];
      }
    }
  }

  lemma ChannelTracks(start: Stored, job: Job)
    requires Tracks(start, job)
    ensures Tracks(start, job.(world := ChannelMade(job.world).world))
  {
    var after := ChannelMade(job.world).world;
    TracksMeans(start, job);
    TracksMeans(start, job.(world := after));
    forall u
      ensures IsRemembered(start, after.stored.channels, job.ledger.snapshots, u)
    {
      assert IsRemembered(start, job.world.stored.channels, job.ledger.snapshots, u);
    }
  }

  /** A channel no table has goes to a new table. */
  lemma FoundTracks(start: Stored, job: Job, t: string, c: nat)
    requires Tracks(start, job) && t !in Homes(job.world.stored.project)
    requires c in job.world.stored.channels && c !in Homes(job.world.stored.project).Values
    ensures
      var p := job.world.stored.project;
      Tracks(start, job.(world := ProjectSaved(job.world, Project(p.live[t := c], p.archived)).world))
  {
    var p := job.world.stored.project;
    var next := Project(p.live[t := c], p.archived);
    TracksMeans(start, job);
    TracksMeans(start, job.(world := ProjectSaved(job.world, next).world));
    HousedMore(p, job.world.stored.channels, t, c);
  }

  lemma HousedMore(p: Project, channels: map<nat, map<nat, Row>>, t: string, c: nat)
    requires IsHoused(p, channels) && t !in Homes(p) && c in channels && c !in Homes(p).Values
    ensures IsHoused(Project(p.live[t := c], p.archived), channels)
    ensures Homes(Project(p.live[t := c], p.archived)) == Homes(p)[t := c]
  {
    assert Homes(Project(p.live[t := c], p.archived)) == Homes(p)[t := c];
  }

  lemma OwnTracks(start: Stored, job: Job, t: string, c: nat)
    requires Tracks(start, job) && t !in Homes(start.project) && t !in job.ledger.created
    requires t in Homes(job.world.stored.project)
    requires c in job.world.stored.channels && c !in start.channels && c !in job.ledger.created.Values
    ensures Tracks(start, job.(ledger := job.ledger.(created := job.ledger.created[t := c])))
  {
    TracksMeans(start, job);
    OwnMore(start, job.world.stored.channels, job.ledger.created, t, c);
    TracksMeans(start, job.(ledger := job.ledger.(created := job.ledger.created[t := c])));
  }

  lemma OwnMore(start: Stored, channels: map<nat, map<nat, Row>>, created: map<string, nat>, t: string, c: nat)
    requires IsOwn(start, channels, created) && t !in Homes(start.project) && t !in created
    requires c in channels && c !in start.channels && c !in created.Values
    ensures IsOwn(start, channels, created[t := c])
  {
  }

  lemma RevivedTracks(start: Stored, job: Job, op: Operation)
    requires Tracks(start, job) && op.CreateTable? && op.table in job.world.stored.project.archived
    ensures Tracks(start, Revived(op, job).job)
  {
    MoveTracks(start, job, op);
  }

  lemma FoundedTracks(start: Stored, job: Job, op: Operation)
    requires Tracks(start, job) && op.CreateTable? && op.table !in job.world.stored.project.archived
    ensures Tracks(start, Founded(op, job).job)
  {
    var p, c := job.world.stored.project, job.world.nextChannel;
    TracksMeans(start, job);
    if op.table !in p.live {
      ChannelTracks(start, job);
      var made := ChannelMade(job.world);
      if made.error == None {
        FoundTracks(start, job.(world := made.world), op.table, c);
        var saved := ProjectSaved(made.world, Project(p.live[op.table := c], p.archived));
        if Founded(op, job).error == None {
          assert op.table in Homes(saved.world.stored.project);
          OwnTracks(start, job.(world := saved.world), op.table, c);
        }
      }
    }
  }

  lemma DroppedTracks(start: Stored, job: Job, op: Operation)
    requires Tracks(start, job) && op.DropTable?
    ensures Tracks(start, Dropped(op, job).job)
  {
    LookTracks(start, job, op.table);
    var looked := Looked(op.table, job);
    if looked.error == None {
      MoveTracks(start, looked.job, op);
    }
  }

  lemma RewrittenTracks(start: Stored, job: Job, op: Operation)
    requires Tracks(start, job)
    ensures Tracks(start, Rewritten(op, job).job)
  {
    LookTracks(start, job, op.table);
    var looked := Looked(op.table, job);
    if looked.error == None && !LacksBackfill(op) {
      if RewritesRows(op) {
        MappedTracks(start, looked.job, op);
        RedefinedTracks(start, RowsMapped(op, looked.job).job, op);
      } else {
        RedefinedTracks(start, looked.job, op);
      }
    }
  }

  lemma MappedTracks(start: Stored, job: Job, op: Operation)
    requires Tracks(start, job) && op.table in job.world.stored.project.live && op.table in job.ledger.snapshots
    ensures Tracks(start, RowsMapped(op, job).job)
  {
    RowsMappedNear(op, job);
    RowsTrack(start, job, op.table, job.world.stored.project.live[op.table], RowsMapped(op, job).job.world);
  }

  lemma RedefinedTracks(start: Stored, job: Job, op: Operation)
    requires Tracks(start, job)
    ensures Tracks(start, Redefined(op, job).job)
  {
  }

  lemma RowsMappedNear(op: Operation, job: Job)
    requires op.table in job.world.stored.project.live
    ensures RowsMapped(op, job).job == job.(world := RowsMapped(op, job).job.world)
    ensures IsNear(job.world, RowsMapped(op, job).job.world, op.table, job.world.stored.project.live[op.table])
  {
    var s, channel := job.world.stored, job.world.stored.project.live[op.table];
    assert IsNear(job.world, Called(job.world), op.table, channel);
    if op.table in s.schemas && Reads(job.world, channel) && MappedRows(op, s.channels[channel]).Some? {
      var edits := InOrder(MappedRows(op, s.channels[channel]).value);
      var schema := NextDefinition(op, s.schemas[op.table]).schema;
      RowsWrittenNear(Called(job.world), op.table, schema, channel, edits);
      NearTrans(job.world, Called(job.world), RowsWritten(Called(job.world), op.table, schema, channel, edits).world,
                op.table, channel);
    }
  }

  lemma OperatedTracks(start: Stored, job: Job, op: Operation, mentions: (string, string) -> bool)
    requires Tracks(start, job)
    ensures Tracks(start, Operated(op, job, mentions).job)
  {
    if Objection(op, job.world.stored.schemas, mentions) == None {
      if op.CreateTable? {
        if op.table in job.world.stored.project.archived {
          RevivedTracks(start, job, op);
        } else {
          FoundedTracks(start, job, op);
        }
      } else if op.DropTable? {
        DroppedTracks(start, job, op);
      } else if !op.AddIndex? && !op.RemoveIndex? && !op.ReplacePolicies? {
        RewrittenTracks(start, job, op);
      }
    }
  }

  /** At every moment of every migration, the rows and the channels of the start can be found again. */
  lemma {:induction false} RanTracks(start: Stored, job: Job, ops: seq<Operation>, mentions: (string, string) -> bool)
    requires Tracks(start, job)
    ensures Tracks(start, Ran(ops, job, mentions).job)
    decreases |ops|
  {
    if ops != [] {
      OperatedTracks(start, job, ops[0], mentions);
      RanTracks(start, Operated(ops[0], job, mentions).job, ops[1..], mentions);
    }
  }

  // ----- Giving up

  /** How far the way back has been gone: the tables in `done` are restored, the creations in `undone` are undone. */
  function ReturningAt(original: Project, last: Job, done: set<string>, undone: set<string>, lapse: Lapse,
                       t: string): Option<Definition>
  {
    if t in undone && t !in Homes(original) && lapse != RemovalLapse(t) then None
    else if t in done && t in last.ledger.snapshots && t in Homes(original) && lapse != SchemaLapse(t)
    then Some(last.ledger.snapshots[t].definition)
    else At(last.world.stored.schemas, t)
  }

  ghost predicate AreSchemasReturning(original: Project, last: Job, done: set<string>, undone: set<string>,
                                      lapse: Lapse, schemas: map<string, Definition>)
  {
    forall t {:trigger At(schemas, t)} :: At(schemas, t) == ReturningAt(original, last, done, undone, lapse, t)
  }

  ghost predicate IsTableReturning(original: Project, last: Job, done: set<string>, undone: set<string>, lapse: Lapse,
                                   now: World, t: string)
  {
    if t in Homes(original) then
      var c := Homes(original)[t];
      && c in now.stored.channels && c in last.world.stored.channels
      && if t !in done then TableAt(now, t, c) == TableAt(last.world, t, c)
         else if lapse == RowsLapse(t) && t in last.ledger.snapshots then
           var snapshot := last.ledger.snapshots[t];
           IsHalfWritten(snapshot.definition.schema, TableAt(last.world, t, c), InOrder(snapshot.rows),
                         TableAt(now, t, c))
         else TableAt(now, t, c) == RestoredTable(last.ledger, last.world, t, c)
    else
      Share(now.entries, t) == if t in undone && lapse != IndexLapse(t) then {} else Share(last.world.entries, t)
  }

  ghost predicate AreTablesReturning(original: Project, last: Job, done: set<string>, undone: set<string>, lapse: Lapse,
                                     now: World)
  {
    forall t {:trigger IsTableReturning(original, last, done, undone, lapse, now, t)} ::
      IsTableReturning(original, last, done, undone, lapse, now, t)
  }

  ghost function UndoneSoFar(original: Project, ledger: Ledger, undone: set<string>, lapse: Lapse): set<nat> {
    set t | t in undone && t in ledger.created && t !in Homes(original) && lapse != ChannelLapse(t) :: ledger.created[t]
  }

  /** A call has thrown on the way, and will not do so again; it was about a table that has been dealt with. */
  ghost predicate IsLapseSoFar(original: Project, last: Job, done: set<string>, undone: set<string>, lapse: Lapse,
                               fuse: Option<nat>)
  {
    && (lapse != NoLapse ==> fuse == None)
    && match lapse
       case NoLapse => true
       case ProjectLapse => false
       case RowsLapse(t) => t in done && t in last.ledger.snapshots && t in Homes(original)
       case SchemaLapse(t) => t in done && t in last.ledger.snapshots && t in Homes(original)
       case ChannelLapse(t) => t in undone && t in last.ledger.created && t !in Homes(original)
       case IndexLapse(t) => t in undone && t in last.ledger.created && t !in Homes(original)
       case RemovalLapse(t) => t in undone && t in last.ledger.created && t !in Homes(original)
  }

  ghost predicate IsGivingUp(original: Project, last: Job, done: set<string>, undone: set<string>, lapse: Lapse,
                             now: World)
  {
    && now.stored.project == original && now.history == last.world.history && now.nextChannel == last.world.nextChannel
    && IsLapseSoFar(original, last, done, undone, lapse, now.fuse)
    && AreSchemasReturning(original, last, done, undone, lapse, now.stored.schemas)
    && AreTablesReturning(original, last, done, undone, lapse, now)
    && now.stored.channels.Keys == last.world.stored.channels.Keys - UndoneSoFar(original, last.ledger, undone, lapse)
  }

  /** What restoring needs to know about the state in which a migration stopped. */
  ghost predicate IsReturnable(original: Project, last: Job) {
    && IsHoused(original, last.world.stored.channels)
    && forall t | t in last.ledger.created && t !in Homes(original) :: last.ledger.created[t] !in Homes(original).Values
  }

  lemma TracksReturnable(start: Stored, last: Job)
    requires Tracks(start, last) && start.project.live.Keys !! start.project.archived.Keys
    ensures IsReturnable(start.project, last)
  {
    TracksMeans(start, last);
    forall t | t in Homes(start.project)
      ensures Homes(start.project)[t] in start.channels && Homes(start.project)[t] in last.world.stored.channels
    {
      assert IsRemembered(start, last.world.stored.channels, last.ledger.snapshots, t);
    }
    var homes := Homes(last.world.stored.project);
    forall t, u | t in Homes(start.project) && u in Homes(start.project) && t != u
      ensures Homes(start.project)[t] != Homes(start.project)[u]
    {
      assert homes[t] != homes[u];
    }
  }

  lemma GivingUpStart(original: Project, last: Job, more: Option<nat>)
    requires IsReturnable(original, last) && ProjectSaved(last.world.(fuse := more), original).error == None
    ensures IsGivingUp(original, last, {}, {}, NoLapse, ProjectSaved(last.world.(fuse := more), original).world)
  {
    var now := ProjectSaved(last.world.(fuse := more), original).world;
    forall t
      ensures IsTableReturning(original, last, {}, {}, NoLapse, now, t)
    {
    }
  }

  /** The lapse of a step, if it is the first. */
  function Lapsed(lapse: Lapse, error: Option<MigrationError>, here: Lapse): Lapse {
    if error == Some(Interrupted) then here else lapse
  }

  lemma SchemaRestored(original: Project, last: Job, done: set<string>, lapse: Lapse, now: World, t: string)
    requires AreSchemasReturning(original, last, done, {}, lapse, now.stored.schemas)
    requires t in last.ledger.snapshots && t !in done && t in Homes(original)
    requires lapse != SchemaLapse(t) && (now.fuse.Some? ==> lapse == NoLapse)
    ensures
      var sent := EventSent(now, Saved(t, last.ledger.snapshots[t].definition));
      AreSchemasReturning(original, last, done + {t}, {}, Lapsed(lapse, sent.error, SchemaLapse(t)),
                          sent.world.stored.schemas)
  {
    var sent := EventSent(now, Saved(t, last.ledger.snapshots[t].definition));
    var next := sent.world.stored.schemas;
    assert forall u {:trigger At(next, u)} :: u != t ==> At(next, u) == At(now.stored.schemas, u);
  }

  lemma TableRestored(original: Project, last: Job, done: set<string>, lapse: Lapse, now: World, t: string,
                      error: Option<MigrationError>, next: World)
    requires AreApart(Homes(original)) && AreTablesReturning(original, last, done, {}, lapse, now)
    requires t in last.ledger.snapshots && t !in done && t in Homes(original)
    requires Homes(original)[t] in now.stored.channels
    requires lapse != RowsLapse(t) && (error == Some(Interrupted) ==> lapse == NoLapse)
    requires IsNear(now, next, t, Homes(original)[t])
    requires
      var c, snapshot := Homes(original)[t], last.ledger.snapshots[t];
      if error == Some(Interrupted) then
        IsHalfWritten(snapshot.definition.schema, TableAt(now, t, c), InOrder(snapshot.rows), TableAt(next, t, c))
      else TableAt(next, t, c) == ReplacedAll(snapshot.definition.schema, TableAt(now, t, c), InOrder(snapshot.rows))
    ensures AreTablesReturning(original, last, done + {t}, {}, Lapsed(lapse, error, RowsLapse(t)), next)
  {
    forall u
      ensures IsTableReturning(original, last, done + {t}, {}, Lapsed(lapse, error, RowsLapse(t)), next, u)
    {
      assert IsTableReturning(original, last, done, {}, lapse, now, u);
      assert u != t ==> Share(next.entries, u) == Share(now.entries, u);
      if u in Homes(original) && u != t {
        assert Homes(original)[u] != Homes(original)[t];
      }
    }
  }

  /** One table is restored: its rows are written, and then its schema is saved. */
  ghost function TablePutBack(now: World, t: string, snapshot: Snapshot, channel: nat, lapse: Lapse): (World, Lapse)
    requires channel in now.stored.channels
  {
    var written := RowsWritten(now, t, snapshot.definition.schema, channel, InOrder(snapshot.rows));
    var sent := EventSent(written.world, Saved(t, snapshot.definition));
    (sent.world, Lapsed(Lapsed(lapse, written.error, RowsLapse(t)), sent.error, SchemaLapse(t)))
  }

  /** The rows of one table are written back, as far as they are. */
  lemma GivingUpRows(original: Project, last: Job, done: set<string>, lapse: Lapse, now: World, t: string)
    requires IsReturnable(original, last) && IsGivingUp(original, last, done, {}, lapse, now)
    requires t in last.ledger.snapshots && t !in done && t in Homes(original)
    ensures Homes(original)[t] in now.stored.channels
    ensures
      var c, snapshot := Homes(original)[t], last.ledger.snapshots[t];
      var written := RowsWritten(now, t, snapshot.definition.schema, c, InOrder(snapshot.rows));
      && IsNear(now, written.world, t, c)
      && AreTablesReturning(original, last, done + {t}, {}, Lapsed(lapse, written.error, RowsLapse(t)), written.world)
      && (written.error == Some(Interrupted) ==> lapse == NoLapse && written.world.fuse == None)
  {
    var c, snapshot := Homes(original)[t], last.ledger.snapshots[t];
    assert IsTableReturning(original, last, done, {}, lapse, now, t);
    var edits, schema := InOrder(snapshot.rows), snapshot.definition.schema;
    var written := RowsWritten(now, t, schema, c, edits);
    RowsWrittenNear(now, t, schema, c, edits);
    RowsWrittenTable(now, t, schema, c, edits);
    TableRestored(original, last, done, lapse, now, t, written.error, written.world);
  }

  lemma GivingUpTable(original: Project, last: Job, done: set<string>, lapse: Lapse, now: World, t: string)
    requires IsReturnable(original, last) && IsGivingUp(original, last, done, {}, lapse, now)
    requires t in last.ledger.snapshots && t !in done && t in Homes(original)
    ensures Homes(original)[t] in now.stored.channels
    ensures
      var back := TablePutBack(now, t, last.ledger.snapshots[t], Homes(original)[t], lapse);
      IsGivingUp(original, last, done + {t}, {}, back.1, back.0)
  {
    var c, snapshot := Homes(original)[t], last.ledger.snapshots[t];
    GivingUpRows(original, last, done, lapse, now, t);
    var written := RowsWritten(now, t, snapshot.definition.schema, c, InOrder(snapshot.rows));
    var lapse' := Lapsed(lapse, written.error, RowsLapse(t));
    SchemasSame(original, last, done, lapse, lapse', now.stored.schemas, t);
    SchemaRestored(original, last, done, lapse', written.world, t);
    var back := TablePutBack(now, t, snapshot, c, lapse);
    SameTables(original, last, done + {t}, {}, lapse', back.1, written.world, back.0);
    assert UndoneSoFar(original, last.ledger, {}, back.1) == {} == UndoneSoFar(original, last.ledger, {}, lapse);
  }

  /** Whether rows are lost does not matter to the schemas. */
  lemma SchemasSame(original: Project, last: Job, done: set<string>, lapse: Lapse, next: Lapse,
                    schemas: map<string, Definition>, t: string)
    requires AreSchemasReturning(original, last, done, {}, lapse, schemas)
    requires next == lapse || (lapse == NoLapse && next == RowsLapse(t))
    ensures AreSchemasReturning(original, last, done, {}, next, schemas)
  {
  }

  lemma SameTables(original: Project, last: Job, done: set<string>, undone: set<string>, lapse: Lapse, next: Lapse,
                   now: World, after: World)
    requires AreTablesReturning(original, last, done, undone, lapse, now)
    requires after.entries == now.entries && after.stored.channels == now.stored.channels
    requires next == lapse || (lapse == NoLapse && (next.SchemaLapse? || next.RemovalLapse?))
    ensures AreTablesReturning(original, last, done, undone, next, after)
  {
    forall u
      ensures IsTableReturning(original, last, done, undone, next, after, u)
    {
      assert IsTableReturning(original, last, done, undone, lapse, now, u);
    }
  }

  /** A table that was not there when the migration began is not restored. */
  lemma GivingUpSkip(original: Project, last: Job, done: set<string>, undone: set<string>, lapse: Lapse, now: World,
                     t: string)
    requires IsGivingUp(original, last, done, undone, lapse, now)
    ensures t !in Homes(original) ==> IsGivingUp(original, last, done + {t}, undone, lapse, now)
    ensures t in Homes(original) ==> IsGivingUp(original, last, done, undone + {t}, lapse, now)
  {
    forall u
      ensures t !in Homes(original) ==> IsTableReturning(original, last, done + {t}, undone, lapse, now, u)
      ensures t in Homes(original) ==> IsTableReturning(original, last, done, undone + {t}, lapse, now, u)
    {
      assert IsTableReturning(original, last, done, undone, lapse, now, u);
    }
    assert t in Homes(original) ==>
      UndoneSoFar(original, last.ledger, undone + {t}, lapse) == UndoneSoFar(original, last.ledger, undone, lapse);
  }

  /** One creation is undone: the channel is deleted, the index emptied, and the schema removed. */
  function CreationUndone(now: World, t: string, channel: nat, lapse: Lapse): (World, Lapse) {
    var deleted := ChannelDeleted(now, channel);
    var dropped := IndexDropped(deleted.world, t);
    var sent := EventSent(dropped.world, Removed(t));
    (sent.world,
     Lapsed(Lapsed(Lapsed(lapse, deleted.error, ChannelLapse(t)), dropped.error, IndexLapse(t)), sent.error,
            RemovalLapse(t)))
  }

  lemma CreationTables(original: Project, last: Job, done: set<string>, undone: set<string>, lapse: Lapse, now: World,
                       t: string)
    requires AreTablesReturning(original, last, done, undone, lapse, now)
    requires IsLapseSoFar(original, last, done, undone, lapse, now.fuse) && t !in undone
    requires t in last.ledger.created && t !in Homes(original) && last.ledger.created[t] !in Homes(original).Values
    ensures
      var back := CreationUndone(now, t, last.ledger.created[t], lapse);
      AreTablesReturning(original, last, done, undone + {t}, back.1, back.0)
  {
    var back := CreationUndone(now, t, last.ledger.created[t], lapse);
    forall u
      ensures IsTableReturning(original, last, done, undone + {t}, back.1, back.0, u)
    {
      assert IsTableReturning(original, last, done, undone, lapse, now, u);
      ShareOfWith(now.entries, t, {}, u);
    }
  }

  lemma GivingUpCreation(original: Project, last: Job, done: set<string>, undone: set<string>, lapse: Lapse, now: World,
                         t: string)
    requires IsReturnable(original, last) && IsGivingUp(original, last, done, undone, lapse, now) && t !in undone
    requires t in last.ledger.created && t !in Homes(original)
    ensures
      var back := CreationUndone(now, t, last.ledger.created[t], lapse);
      IsGivingUp(original, last, done, undone + {t}, back.1, back.0)
  {
    var back := CreationUndone(now, t, last.ledger.created[t], lapse);
    CreationTables(original, last, done, undone, lapse, now, t);
    assert forall u {:trigger At(back.0.stored.schemas, u)} ::
      u != t ==> At(back.0.stored.schemas, u) == At(now.stored.schemas, u);
    CreationChannels(original, last, undone, lapse, now, t);
  }

  lemma CreationChannels(original: Project, last: Job, undone: set<string>, lapse: Lapse, now: World, t: string)
    requires t in last.ledger.created && t !in Homes(original) && t !in undone
    requires lapse != ChannelLapse(t) && (now.fuse.Some? ==> lapse == NoLapse)
    requires now.stored.channels.Keys ==
      last.world.stored.channels.Keys - UndoneSoFar(original, last.ledger, undone, lapse)
    ensures
      var back := CreationUndone(now, t, last.ledger.created[t], lapse);
      back.0.stored.channels.Keys ==
        last.world.stored.channels.Keys - UndoneSoFar(original, last.ledger, undone + {t}, back.1)
  {
    var back, c := CreationUndone(now, t, last.ledger.created[t], lapse), last.ledger.created[t];
    assert UndoneSoFar(original, last.ledger, undone + {t}, back.1) ==
      UndoneSoFar(original, last.ledger, undone, lapse) + if back.1 == ChannelLapse(t) then {} else {c};
  }

  lemma GivingUpEnd(original: Project, last: Job, lapse: Lapse, now: World)
    requires IsGivingUp(original, last, last.ledger.snapshots.Keys, last.ledger.created.Keys, lapse, now)
    ensures lapse != ProjectLapse && IsGivenUpBut(original, last, lapse, now)
  {
    var done, undone := last.ledger.snapshots.Keys, last.ledger.created.Keys;
    forall t
      ensures At(now.stored.schemas, t) ==
        if lapse == SchemaLapse(t) || lapse == RemovalLapse(t) then At(last.world.stored.schemas, t)
        else ReturnedAt(original, last, t)
      ensures IsTableGivenUpBut(original, last, lapse, now, t)
    {
      assert IsTableReturning(original, last, done, undone, lapse, now, t);
    }
    assert UndoneSoFar(original, last.ledger, undone, lapse) == UndoneChannelsBut(original, last.ledger, lapse);
  }

  /** The fuse does not matter to what a migration that stopped leaves. */
  lemma SameWayBack(original: Project, last: Job, other: Job, lapse: Lapse, after: World)
    requires IsGivenUpBut(original, other, lapse, after) && other == last.(world := other.world)
    requires other.world == last.world.(fuse := other.world.fuse)
    ensures IsGivenUpBut(original, last, lapse, after)
  {
    if lapse != ProjectLapse {
      forall t
        ensures At(after.stored.schemas, t) ==
          if lapse == SchemaLapse(t) || lapse == RemovalLapse(t) then At(last.world.stored.schemas, t)
          else ReturnedAt(original, last, t)
        ensures IsTableGivenUpBut(original, last, lapse, after, t)
      {
        assert IsTableGivenUpBut(original, other, lapse, after, t);
      }
    }
  }

  /** Without a lapse all is given up as it should be. */
  lemma NothingLapsed(original: Project, last: Job, after: World)
    ensures IsGivenUpBut(original, last, NoLapse, after) <==> IsGivenUp(original, last, after)
  {
    assert UndoneChannelsBut(original, last.ledger, NoLapse) == UndoneChannels(original, last.ledger);
    forall t
      ensures IsTableGivenUpBut(original, last, NoLapse, after, t) <==> IsTableGivenUp(original, last, after, t)
    {
    }
  }

  lemma GivenUpHoused(start: Stored, last: Job, lapse: Lapse, after: World)
    requires IsGivenUpBut(start.project, last, lapse, after) && IsHoused(start.project, start.channels)
    requires IsHoused(last.world.stored.project, last.world.stored.channels)
    ensures IsHoused(after.stored.project, after.stored.channels)
  {
    if lapse != ProjectLapse {
      forall t | t in Homes(start.project)
        ensures Homes(start.project)[t] in after.stored.channels
      {
        assert IsTableGivenUpBut(start.project, last, lapse, after, t);
      }
    }
  }

  // ----- Rebuilding indexes

  lemma LiveAreHoused(s: Stored)
    requires IsHoused(s.project, s.channels)
    ensures forall t :: t in s.schemas && t in s.project.live ==> IsLive(s, t)
  {
    assert forall t :: t in s.project.live ==> t in Homes(s.project) && Homes(s.project)[t] == s.project.live[t];
  }

  /** The live ones of these tables have their index rebuilt, the other tables have theirs as before. */
  ghost predicate AreRebuilt(s: Stored, before: set<Entry>, after: set<Entry>, tables: set<string>) {
    forall t {:trigger Share(after, t)} ::
      Share(after, t) == if t in tables && IsLive(s, t) then Expected(s, t) else Share(before, t)
  }

  lemma MoreRebuilt(s: Stored, before: set<Entry>, now: set<Entry>, tables: set<string>, table: string,
                    after: set<Entry>)
    requires AreRebuilt(s, before, now, tables)
    requires after == if IsLive(s, table) then WithShare(now, table, Expected(s, table)) else now
    ensures AreRebuilt(s, before, after, tables + {table})
  {
    forall t
      ensures Share(after, t) == if t in tables + {table} && IsLive(s, t) then Expected(s, t) else Share(before, t)
    {
      ShareOfWith(now, table, Expected(s, table), t);
    }
  }

  lemma PartlyRebuilt(job: Job, now: set<Entry>, tables: set<string>, table: string, after: set<Entry>)
    requires AreRebuilt(job.world.stored, job.world.entries, now, tables) && tables + {table} <= job.touched
    requires after == now || after == WithShare(now, table, {})
    ensures ArePartlyRebuilt(job, after)
  {
    forall t
      ensures Share(after, t) in {Share(job.world.entries, t), {}, Expected(job.world.stored, t)}
      ensures t !in job.touched ==> Share(after, t) == Share(job.world.entries, t)
    {
      ShareOfWith(now, table, {}, t);
      assert Share(now, t) in {Share(job.world.entries, t), Expected(job.world.stored, t)};
    }
  }
}
