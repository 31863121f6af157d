/** Whether a failed migration gets the schemas back, and where it leaves them if not. */
module SchemaRecovery {
  import opened Wrappers
  import opened Rows
  import opened Tables
  import opened QueryEngine
  import opened Migrations
  import opened MigrationSteps
  import opened Recovery
  import opened MigrationRuns

  /** The definition of a table as the operations before the first one that takes a snapshot leave it. */
  function LooseDefinition(definition: Option<Definition>, ops: seq<Operation>, t: string): Option<Definition>
    decreases |ops|
  {
    if ops == [] || (ops[0].table == t && Looks(ops[0])) then definition
    else LooseDefinition(if ops[0].table == t then NextAt(definition, ops[0]) else definition, ops[1..], t)
  }

  /** How many operations are carried out before one fails. */
  ghost function Completed(ops: seq<Operation>, job: Job, mentions: (string, string) -> bool): (n: nat)
    ensures n <= |ops|
    decreases |ops|
  {
    if ops == [] || Operated(ops[0], job, mentions).error.Some? then 0
    else 1 + Completed(ops[1..], Operated(ops[0], job, mentions).job, mentions)
  }

  /** The definition that would come back is the one the operations before the first snapshot have left. */
  lemma {:induction false} RanMemory(start: Stored, ops: seq<Operation>, job: Job, mentions: (string, string) -> bool,
                                     t: string)
    requires Tracks(start, job)
    ensures MemoryOf(Ran(ops, job, mentions).job, t) ==
      if t in job.ledger.snapshots then MemoryOf(job, t)
      else LooseDefinition(MemoryOf(job, t), ops[..Completed(ops, job, mentions)], t)
    decreases |ops|
  {
    if ops != [] {
      var op, o := ops[0], Operated(ops[0], job, mentions);
      TracksMeans(start, job);
      OperatedTracks(start, job, op, mentions);
      if op.table == t {
        OperatedMemory(op, job, mentions);
      } else {
        OperatedView(op, job, mentions, t);
        OperatedNotes(op, job, mentions, t);
      }
      if o.error == None {
        RanMemory(start, ops[1..], o.job, mentions, t);
        var n := Completed(ops[1..], o.job, mentions);
        assert ops[..n + 1][1..] == ops[1..][..n];
      }
    }
  }

  /** The tables of the schemas are those of the start and those the migration made. */
  ghost predicate IsKnown(start: Stored, job: Job, t: string) {
    t in job.world.stored.schemas ==> t in Homes(start.project) || t in job.ledger.created
  }

  ghost predicate IsKnownHome(start: Stored, job: Job, t: string) {
    t in Homes(job.world.stored.project) ==> t in Homes(start.project) || t in job.ledger.created
  }

  lemma OwnKnown(start: Stored, op: Operation, job: Job, mentions: (string, string) -> bool)
    requires IsKnown(start, job, op.table) && IsKnownHome(start, job, op.table)
    ensures var o := Operated(op, job, mentions);
      IsKnown(start, o.job, op.table) && (o.error == None ==> IsKnownHome(start, o.job, op.table))
  {
    if Objection(op, job.world.stored.schemas, mentions) == None && Looks(op) && !op.DropTable? {
      RewrittenKnown(op, job);
    }
  }

  lemma {:induction false} RanKnown(start: Stored, ops: seq<Operation>, job: Job, mentions: (string, string) -> bool,
                                    t: string)
    requires Tracks(start, job) && IsKnown(start, job, t) && IsKnownHome(start, job, t)
    ensures IsKnown(start, Ran(ops, job, mentions).job, t)
    decreases |ops|
  {
    if ops != [] {
      var op, o := ops[0], Operated(ops[0], job, mentions);
      TracksMeans(start, job);
      OperatedTracks(start, job, op, mentions);
      if op.table == t {
        OwnKnown(start, op, job, mentions);
      } else {
        OperatedView(op, job, mentions, t);
        OperatedNotes(op, job, mentions, t);
        assert At(job.world.stored.schemas, t) == At(o.job.world.stored.schemas, t);
        assert ViewOf(o.job.world, t).live == At(job.world.stored.project.live, t);
        assert ViewOf(o.job.world, t).archived == At(job.world.stored.project.archived, t);
      }
      if o.error == None {
        RanKnown(start, ops[1..], o.job, mentions, t);
      }
    }
  }

  /** Every live table has a schema, and every schema is of a table that is live or dropped. */
  predicate IsAnchored(s: Stored) {
    s.project.live.Keys <= s.schemas.Keys <= Homes(s.project).Keys
  }

  /** The tables with a schema and no live channel. */
  function Strays(s: Stored): set<string> {
    s.schemas.Keys - s.project.live.Keys
  }

  /** The schemas are those of the live tables. */
  predicate IsSettled(s: Stored) {
    s.schemas.Keys == s.project.live.Keys
  }

  /** The operations that were carried out before the one at which a migration stopped. */
  ghost function Done(before: World, ops: seq<Operation>, mentions: (string, string) -> bool): seq<Operation> {
    ops[..Completed(ops, Fresh(before), mentions)]
  }

  /** The definition of every table after a failure. */
  lemma SchemasAfterFailure(before: World, migration: string, ops: seq<Operation>, up: bool,
                            mentions: (string, string) -> bool, error: MigrationError, last: Job, after: World,
                            t: string)
    requires IsStart(before) && IsAnchored(before.stored)
    requires IsExecuted(before, migration, ops, up, mentions, Some(error), last, after)
    ensures At(after.stored.schemas, t) ==
      if t !in Homes(before.stored.project) then None
      else LooseDefinition(At(before.stored.schemas, t), Done(before, ops, mentions), t)
  {
    var start, job := before.stored, Fresh(before);
    FreshTracks(before);
    StoppedTracks(before, ops, mentions, error, last);
    TracksMeans(start, last);
    RanMemory(start, ops, job, mentions, t);
    RanKnown(start, ops, job, mentions, t);
    assert At(after.stored.schemas, t) == ReturnedAt(start.project, last, t);
  }

  /**
   * A failed migration brings the schemas back if and only if, for every table, the operations carried out on it
   * before the first one that takes a snapshot leave its definition as it was.
   */
  lemma SchemasComeBack(before: World, migration: string, ops: seq<Operation>, up: bool,
                        mentions: (string, string) -> bool, error: MigrationError, last: Job, after: World)
    requires IsStart(before) && IsAnchored(before.stored)
    requires IsExecuted(before, migration, ops, up, mentions, Some(error), last, after)
    ensures after.stored.schemas == before.stored.schemas <==>
      forall t :: t in Homes(before.stored.project) ==>
        LooseDefinition(At(before.stored.schemas, t), Done(before, ops, mentions), t) == At(before.stored.schemas, t)
  {
    var schemas := before.stored.schemas;
    forall t
      ensures At(after.stored.schemas, t) ==
        if t in Homes(before.stored.project) then LooseDefinition(At(schemas, t), Done(before, ops, mentions), t)
        else None
    {
      SchemasAfterFailure(before, migration, ops, up, mentions, error, last, after, t);
    }
    if forall t :: t in Homes(before.stored.project) ==>
        LooseDefinition(At(schemas, t), Done(before, ops, mentions), t) == At(schemas, t) {
      forall t
        ensures At(after.stored.schemas, t) == At(schemas, t)
      {
        assert t in schemas ==> t in Homes(before.stored.project);
      }
      SameMaps(after.stored.schemas, schemas);
    }
  }

  lemma {:induction false} CarefulLoose(start: Stored, ops: seq<Operation>, job: Job,
                                        mentions: (string, string) -> bool, t: string, archived: map<string, nat>)
    requires Tracks(start, job) && (forall i :: 0 <= i < |ops| ==> IsCareful(ops[i], archived))
    requires t in job.world.stored.schemas || t in archived
    ensures var definition := At(job.world.stored.schemas, t);
      LooseDefinition(definition, ops[..Completed(ops, job, mentions)], t) == definition
    decreases |ops|
  {
    if ops != [] {
      var op, o := ops[0], Operated(ops[0], job, mentions);
      if o.error == None {
        TracksMeans(start, job);
        OperatedTracks(start, job, op, mentions);
        var n := Completed(ops[1..], o.job, mentions);
        assert ops[..n + 1][1..] == ops[1..][..n];
        if op.table != t {
          OperatedView(op, job, mentions, t);
          assert At(o.job.world.stored.schemas, t) == At(job.world.stored.schemas, t);
          CarefulLoose(start, ops[1..], o.job, mentions, t, archived);
        } else {
          assert Looks(op);
        }
      }
    }
  }

  /** A migration of operations that all take snapshots brings the schemas back, whichever call fails. */
  lemma CarefulSchemasComeBack(before: World, migration: string, ops: seq<Operation>, up: bool,
                               mentions: (string, string) -> bool, error: MigrationError, last: Job, after: World)
    requires IsStart(before) && IsAnchored(before.stored)
    requires forall i :: 0 <= i < |ops| ==> IsCareful(ops[i], before.stored.project.archived)
    requires IsExecuted(before, migration, ops, up, mentions, Some(error), last, after)
    ensures after.stored.schemas == before.stored.schemas
  {
    FreshTracks(before);
    forall t | t in Homes(before.stored.project)
      ensures LooseDefinition(At(before.stored.schemas, t), Done(before, ops, mentions), t) ==
        At(before.stored.schemas, t)
    {
      CarefulLoose(before.stored, ops, Fresh(before), mentions, t, before.stored.project.archived);
    }
    SchemasComeBack(before, migration, ops, up, mentions, error, last, after);
  }

  // ----- The operations a failure does not take back

  /** When an operation without a snapshot changes nothing. */
  lemma HarmlessWhen(op: Operation, definition: Option<Definition>)
    requires !Looks(op) && (op.CreateTable? <==> definition == None)
    ensures NextAt(definition, op) == definition <==>
      match op
      case AddIndex(_, column) => column in definition.value.schema.indexes
      case RemoveIndex(_, column) => column !in definition.value.schema.indexes
      case ReplacePolicies(_, policies) => definition.value.policies == policies
      case _ => false
  {
    if op.RemoveIndex? {
      WithoutAbsent(definition.value.schema.indexes, op.column);
    } else if op.AddIndex? {
      var indexes := definition.value.schema.indexes;
      assert op.column !in indexes ==> |indexes + [op.column]| != |indexes|;
    }
  }

  lemma StopsAtMissing(op: Operation, missing: string, job: Job, mentions: (string, string) -> bool)
    requires IsHoused(job.world.stored.project, job.world.stored.channels)
    requires IsBounded(job.world.stored.channels, job.world.nextChannel)
    requires op.table != missing && missing !in job.world.stored.schemas && Operated(op, job, mentions).error == None
    ensures Ran([op, DropTable(missing)], job, mentions) == Outcome(Operated(op, job, mentions).job, Some(Missing))
    ensures Completed([op, DropTable(missing)], job, mentions) == 1
  {
    var ops, o := [op, DropTable(missing)], Operated(op, job, mentions);
    OperatedView(op, job, mentions, missing);
    assert At(o.job.world.stored.schemas, missing) == At(job.world.stored.schemas, missing);
    assert ops[1..] == [DropTable(missing)];
    assert Operated(DropTable(missing), o.job, mentions) == Outcome(o.job, Some(Missing));
    assert Ran(ops[1..], o.job, mentions) == Outcome(o.job, Some(Missing)) && Completed(ops[1..], o.job, mentions) == 0;
  }

  /**
   * A failed migration that has added or removed an index, replaced policies or taken a table back: the change stays,
   * so the schemas are those of the start exactly when it changed nothing.
   */
  lemma LooseOperationStays(before: World, migration: string, op: Operation, missing: string, up: bool,
                            mentions: (string, string) -> bool, error: Option<MigrationError>, last: Job, after: World)
    requires IsStart(before) && IsAnchored(before.stored) && before.fuse == None
    requires !Looks(op) && Objection(op, before.stored.schemas, mentions) == None
    requires op.CreateTable? ==> op.table in before.stored.project.archived
    requires missing !in before.stored.schemas && missing != op.table
    requires IsExecuted(before, migration, [op, DropTable(missing)], up, mentions, error, last, after)
    ensures error == Some(Missing)
    ensures At(after.stored.schemas, op.table) == NextAt(At(before.stored.schemas, op.table), op)
    ensures
      var definition := At(before.stored.schemas, op.table);
      after.stored.schemas == before.stored.schemas <==> NextAt(definition, op) == definition
  {
    var ops := [op, DropTable(missing)];
    StopsAtMissing(op, missing, Fresh(before), mentions);
    assert Done(before, ops, mentions) == [op];
    assert op.table in Homes(before.stored.project);
    forall t | t in Homes(before.stored.project)
      ensures LooseDefinition(At(before.stored.schemas, t), [op], t) ==
        if t == op.table then NextAt(At(before.stored.schemas, t), op) else At(before.stored.schemas, t)
    {
      assert [op][1..] == [];
    }
    SchemasComeBack(before, migration, ops, up, mentions, Missing, last, after);
    SchemasAfterFailure(before, migration, ops, up, mentions, Missing, last, after, op.table);
  }

  /** A table with a schema but no live channel: it can be neither created nor dropped. */
  predicate IsStuck(w: World, t: string) {
    t in Strays(w.stored)
  }

  /** That is what a failed migration makes of a table it has taken back. */
  lemma RecreationSticks(before: World, migration: string, op: Operation, missing: string, up: bool,
                         mentions: (string, string) -> bool, error: Option<MigrationError>, last: Job, after: World)
    requires IsStart(before) && IsAnchored(before.stored) && before.fuse == None
    requires op.CreateTable? && op.table in before.stored.project.archived && !HasEncryptedIndex(op.definition.schema)
    requires missing !in before.stored.schemas && missing != op.table
    requires IsExecuted(before, migration, [op, DropTable(missing)], up, mentions, error, last, after)
    ensures IsStuck(after, op.table)
  {
    assert op.table in Homes(before.stored.project) && op.table !in before.stored.project.live;
    if op.table in before.stored.schemas {
      StuckStays(before, migration, [op, DropTable(missing)], up, mentions, error, last, after, op.table);
    } else {
      LooseOperationStays(before, migration, op, missing, up, mentions, error, last, after);
    }
  }

  lemma StuckOperation(op: Operation, job: Job, mentions: (string, string) -> bool)
    requires IsStuck(job.world, op.table)
    ensures IsStuck(Operated(op, job, mentions).job.world, op.table)
    ensures At(Operated(op, job, mentions).job.ledger.snapshots, op.table) == At(job.ledger.snapshots, op.table)
    ensures At(Operated(op, job, mentions).job.ledger.created, op.table) == At(job.ledger.created, op.table)
    ensures op.CreateTable? || Looks(op) ==> Operated(op, job, mentions).error.Some?
  {
  }

  lemma {:induction false} RanStuck(start: Stored, ops: seq<Operation>, job: Job, mentions: (string, string) -> bool,
                                    t: string)
    requires Tracks(start, job) && IsStuck(job.world, t)
    ensures var last := Ran(ops, job, mentions).job;
      && IsStuck(last.world, t) && At(last.ledger.snapshots, t) == At(job.ledger.snapshots, t)
      && At(last.ledger.created, t) == At(job.ledger.created, t)
    decreases |ops|
  {
    if ops != [] {
      var op, o := ops[0], Operated(ops[0], job, mentions);
      TracksMeans(start, job);
      OperatedTracks(start, job, op, mentions);
      if op.table == t {
        StuckOperation(op, job, mentions);
      } else {
        OperatedView(op, job, mentions, t);
        OperatedNotes(op, job, mentions, t);
        assert ViewOf(o.job.world, t) == ViewOf(job.world, t);
        assert At(o.job.world.stored.schemas, t) == At(job.world.stored.schemas, t);
      }
      if o.error == None {
        RanStuck(start, ops[1..], o.job, mentions, t);
      }
    }
  }

  /** No migration gets a stuck table loose again. */
  lemma StuckStays(before: World, migration: string, ops: seq<Operation>, up: bool, mentions: (string, string) -> bool,
                   error: Option<MigrationError>, last: Job, after: World, t: string)
    requires IsStart(before) && IsStuck(before, t)
    requires IsExecuted(before, migration, ops, up, mentions, error, last, after)
    ensures IsStuck(after, t)
  {
    FreshTracks(before);
    RanStuck(before.stored, ops, Fresh(before), mentions, t);
    if error.Some? {
      StoppedTracks(before, ops, mentions, error.value, last);
      TracksMeans(before.stored, last);
      assert At(BLANK.snapshots, t) == None && At(BLANK.created, t) == None;
      assert At(after.stored.schemas, t) == ReturnedAt(before.stored.project, last, t);
    }
  }

  // ----- Where a failed migration leaves the project

  /** The table is created before anything takes a snapshot of it. */
  predicate Recreates(ops: seq<Operation>, t: string)
    decreases |ops|
  {
    ops != [] && if ops[0].table != t then Recreates(ops[1..], t)
                 else ops[0].CreateTable? || (!Looks(ops[0]) && Recreates(ops[1..], t))
  }

  lemma {:induction false} LooseIsThere(definition: Option<Definition>, ops: seq<Operation>, t: string)
    ensures LooseDefinition(definition, ops, t).Some? <==> definition.Some? || Recreates(ops, t)
    decreases |ops|
  {
    if ops != [] && !(ops[0].table == t && Looks(ops[0])) {
      LooseIsThere(if ops[0].table == t then NextAt(definition, ops[0]) else definition, ops[1..], t);
    }
  }

  /** The dropped tables that a migration creates again and, when it fails, does not drop again. */
  ghost function Retaken(before: World, ops: seq<Operation>, mentions: (string, string) -> bool): set<string> {
    set t | t in before.stored.project.archived && Recreates(Done(before, ops, mentions), t)
  }

  /** After a failure the tables with a schema and no live channel are those of before and those it has taken back. */
  lemma SettledAfterFailure(before: World, migration: string, ops: seq<Operation>, up: bool,
                            mentions: (string, string) -> bool, error: MigrationError, last: Job, after: World)
    requires IsStart(before) && IsAnchored(before.stored)
    requires IsExecuted(before, migration, ops, up, mentions, Some(error), last, after)
    ensures IsStart(after) && IsAnchored(after.stored) && after.stored.project == before.stored.project
    ensures Strays(after.stored) == Strays(before.stored) + Retaken(before, ops, mentions)
    ensures IsSettled(after.stored) <==> IsSettled(before.stored) && Retaken(before, ops, mentions) == {}
  {
    StoppedTracks(before, ops, mentions, error, last);
    TracksMeans(before.stored, last);
    NothingLapsed(before.stored.project, last, after);
    GivenUpHoused(before.stored, last, NoLapse, after);
    forall t
      ensures t in after.stored.schemas <==> t in before.stored.schemas || t in Retaken(before, ops, mentions)
    {
      SchemaAfterFailure(before, migration, ops, up, mentions, error, last, after, t);
    }
    MoreStrays(before.stored, after.stored, Retaken(before, ops, mentions));
    SettledMeans(before.stored);
    SettledMeans(after.stored);
  }

  lemma SchemaAfterFailure(before: World, migration: string, ops: seq<Operation>, up: bool,
                           mentions: (string, string) -> bool, error: MigrationError, last: Job, after: World,
                           t: string)
    requires IsStart(before) && IsAnchored(before.stored)
    requires IsExecuted(before, migration, ops, up, mentions, Some(error), last, after)
    ensures t in after.stored.schemas <==> t in before.stored.schemas || t in Retaken(before, ops, mentions)
  {
    SchemasAfterFailure(before, migration, ops, up, mentions, error, last, after, t);
    LooseIsThere(At(before.stored.schemas, t), Done(before, ops, mentions), t);
  }

  lemma MoreStrays(before: Stored, after: Stored, retaken: set<string>)
    requires IsAnchored(before) && before.project.live.Keys !! before.project.archived.Keys
    requires after.project == before.project && retaken <= before.project.archived.Keys
    requires forall t :: t in after.schemas <==> t in before.schemas || t in retaken
    ensures IsAnchored(after) && Strays(after) == Strays(before) + retaken
  {
    assert retaken <= Homes(before.project).Keys && retaken !! before.project.live.Keys;
  }

  lemma SettledMeans(s: Stored)
    ensures IsSettled(s) <==> Strays(s) == {} && s.project.live.Keys <= s.schemas.Keys
  {
    assert forall t :: t in Strays(s) <==> t in s.schemas && t !in s.project.live;
  }

  /**
   * An index that a failed migration has added is in the schema, but empty: the index of its table is not as it should
   * be as soon as one row has a value in the column, and a select by it finds nothing.
   */
  lemma AddedIndexLags(before: World, migration: string, t: string, column: string, missing: string, up: bool,
                       mentions: (string, string) -> bool, error: Option<MigrationError>, last: Job, after: World,
                       id: nat)
    requires IsStart(before) && IsAnchored(before.stored) && before.fuse == None && IsCurrent(before, t)
    requires t in before.stored.project.live && t in before.stored.schemas && missing !in before.stored.schemas
    requires column !in before.stored.schemas[t].schema.indexes
    requires HasColumn(before.stored.schemas[t].schema.columns, column)
    requires !IsEncrypted(before.stored.schemas[t].schema, column)
    requires
      var rows := ViewOf(before, t).rows; rows.Some? && id in rows.value && !IsNullish(Cell(rows.value[id], column))
    requires IsExecuted(before, migration, [AddIndex(t, column), DropTable(missing)], up, mentions, error, last, after)
    ensures !IsCurrent(after, t)
    ensures forall value: string, row: nat :: IndexKey(column, value, row) !in Share(after.entries, t)
  {
    var op := AddIndex(t, column);
    var d := before.stored.schemas[t];
    LooseOperationStays(before, migration, op, missing, up, mentions, error, last, after);
    StopsAtMissing(op, missing, Fresh(before), mentions);
    assert t in Homes(before.stored.project) && Homes(before.stored.project)[t] == before.stored.project.live[t];
    assert IsTableGivenUp(before.stored.project, last, after, t);
    HomeOfView(after, t);
    HomeOfView(before, t);
    assert ViewOf(after, t) == ViewOf(before, t).(definition := Some(NextDefinition(op, d)));
    var row := ViewOf(before, t).rows.value[id];
    var key := IndexKey(column, Show(row[column]), id);
    assert IsRebuilt(NextDefinition(op, d).schema, row, column) && column in NextDefinition(op, d).schema.indexes;
    assert key in TableKeys(NextDefinition(op, d).schema, ViewOf(before, t).rows.value);
    assert key !in ViewOf(before, t).keys;
  }
}
