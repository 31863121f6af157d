/** What a failed migration leaves when a call of its way back throws as well. */
module SecondFailures {
  import opened Wrappers
  import opened Rows
  import opened Tables
  import opened QueryEngine
  import opened Migrations
  import opened MigrationSteps
  import opened Recovery
  import opened MigrationRuns
  import opened SchemaRecovery

  /** If none does, it is what the theorems about migrations on a storage that answers again are about. */
  lemma UndisturbedIsExecuted(before: World, migration: string, ops: seq<Operation>, up: bool,
                              mentions: (string, string) -> bool, error: Option<MigrationError>, reason: MigrationError,
                              last: Job, after: World)
    ensures IsExecutedBut(before, migration, ops, up, mentions, error, reason, last, NoLapse, after) ==>
      IsExecuted(before, migration, ops, up, mentions, error, last, after)
  {
    NothingLapsed(before.stored.project, last, after);
  }

  /** If the channel maps cannot be saved, the project stays as the migration had left it when it stopped. */
  lemma NothingIsRestored(before: World, migration: string, ops: seq<Operation>, up: bool,
                          mentions: (string, string) -> bool, error: Option<MigrationError>, reason: MigrationError,
                          last: Job, after: World)
    requires IsStart(before)
    requires IsExecutedBut(before, migration, ops, up, mentions, error, reason, last, ProjectLapse, after)
    ensures error == Some(Interrupted) && after.stored == last.world.stored && after.entries == last.world.entries
    ensures IsStart(after) && forall t :: !Names(ops, t) ==> ViewOf(after, t) == ViewOf(before, t)
  {
    StoppedTracks(before, ops, mentions, reason, last);
    TracksMeans(before.stored, last);
    forall t | !Names(ops, t)
      ensures ViewOf(after, t) == ViewOf(before, t)
    {
      StoppedView(before, ops, mentions, reason, last, t);
    }
  }

  /** What else a call that throws costs its own table: `whole` is the world if it had not thrown. */
  ghost predicate IsCostOf(original: Project, last: Job, lapse: Lapse, whole: World, after: World) {
    match lapse
    case NoLapse => true
    case ProjectLapse => true
    case RowsLapse(t) =>
      && t in Homes(original) && t in last.ledger.snapshots && Homes(original)[t] in last.world.stored.channels
      && ViewOf(after, t).rows.Some?
      && ViewOf(after, t) == ViewOf(whole, t).(rows := ViewOf(after, t).rows, keys := ViewOf(after, t).keys)
      && var c, snapshot := Homes(original)[t], last.ledger.snapshots[t];
      IsHalfWritten(snapshot.definition.schema, TableAt(last.world, t, c), InOrder(snapshot.rows),
                    Table(ViewOf(after, t).rows.value, ViewOf(after, t).keys))
    case SchemaLapse(t) => ViewOf(after, t) == ViewOf(whole, t).(definition := At(last.world.stored.schemas, t))
    case ChannelLapse(t) => ViewOf(after, t) == ViewOf(whole, t)
    case IndexLapse(t) => ViewOf(after, t) == ViewOf(whole, t).(keys := Share(last.world.entries, t))
    case RemovalLapse(t) => ViewOf(after, t) == ViewOf(whole, t).(definition := At(last.world.stored.schemas, t))
  }

  function LapsedTable(lapse: Lapse): Option<string> {
    match lapse
    case NoLapse => None
    case ProjectLapse => None
    case RowsLapse(t) => Some(t)
    case SchemaLapse(t) => Some(t)
    case ChannelLapse(t) => Some(t)
    case IndexLapse(t) => Some(t)
    case RemovalLapse(t) => Some(t)
  }

  function WithSchema(w: World, t: string, definition: Option<Definition>): World {
    var schemas := w.stored.schemas;
    w.(stored := w.stored.(schemas := if definition == None then schemas - {t} else schemas[t := definition.value]))
  }

  /** The world as it would be without the lapse. */
  ghost function Mended(original: Project, last: Job, lapse: Lapse, after: World): World
    requires IsGivenUpBut(original, last, lapse, after) && lapse != ProjectLapse
  {
    match lapse
    case NoLapse => after
    case ProjectLapse => after
    case RowsLapse(t) =>
      assert IsTableGivenUpBut(original, last, lapse, after, t);
      var c := Homes(original)[t];
      var table := RestoredTable(last.ledger, last.world, t, c);
      after.(stored := after.stored.(channels := after.stored.channels[c := table.rows]),
             entries := WithShare(after.entries, t, table.index))
    case SchemaLapse(t) => WithSchema(after, t, ReturnedAt(original, last, t))
    case ChannelLapse(t) =>
      after.(stored := after.stored.(channels := after.stored.channels - {last.ledger.created[t]}))
    case IndexLapse(t) => after.(entries := WithShare(after.entries, t, {}))
    case RemovalLapse(t) => WithSchema(after, t, ReturnedAt(original, last, t))
  }

  lemma RowsMended(original: Project, last: Job, lapse: Lapse, after: World)
    requires IsReturnable(original, last) && lapse.RowsLapse? && IsGivenUpBut(original, last, lapse, after)
    ensures var whole := Mended(original, last, lapse, after);
      && IsGivenUp(original, last, whole) && IsCostOf(original, last, lapse, whole, after)
      && forall u :: u != lapse.table ==> ViewOf(whole, u) == ViewOf(after, u)
  {
    var t, whole := lapse.table, Mended(original, last, lapse, after);
    assert IsTableGivenUpBut(original, last, lapse, after, t);
    var c := Homes(original)[t];
    var table := RestoredTable(last.ledger, last.world, t, c);
    forall u
      ensures IsTableGivenUp(original, last, whole, u)
      ensures u != t ==> ViewOf(whole, u) == ViewOf(after, u)
    {
      assert IsTableGivenUpBut(original, last, lapse, after, u);
      ShareOfWith(after.entries, t, table.index, u);
      if u in Homes(original) && u != t {
        assert Homes(original)[u] != Homes(original)[t];
      }
    }
    forall u
      ensures At(whole.stored.schemas, u) == ReturnedAt(original, last, u)
    {
      assert At(after.stored.schemas, u) == ReturnedAt(original, last, u);
    }
    assert UndoneChannelsBut(original, last.ledger, lapse) == UndoneChannels(original, last.ledger);
  }

  lemma SchemaMended(original: Project, last: Job, lapse: Lapse, after: World)
    requires (lapse.SchemaLapse? || lapse.RemovalLapse?) && IsGivenUpBut(original, last, lapse, after)
    ensures var whole := Mended(original, last, lapse, after);
      && IsGivenUp(original, last, whole) && IsCostOf(original, last, lapse, whole, after)
      && forall u :: u != lapse.table ==> ViewOf(whole, u) == ViewOf(after, u)
  {
    var t, whole := lapse.table, Mended(original, last, lapse, after);
    forall u
      ensures IsTableGivenUp(original, last, whole, u)
      ensures u != t ==> ViewOf(whole, u) == ViewOf(after, u)
      ensures At(whole.stored.schemas, u) == ReturnedAt(original, last, u)
    {
      assert IsTableGivenUpBut(original, last, lapse, after, u);
      assert u != t ==> At(whole.stored.schemas, u) == At(after.stored.schemas, u);
    }
    assert At(after.stored.schemas, t) == At(last.world.stored.schemas, t);
    assert UndoneChannelsBut(original, last.ledger, lapse) == UndoneChannels(original, last.ledger);
  }

  lemma ChannelMended(original: Project, last: Job, lapse: Lapse, after: World)
    requires IsReturnable(original, last) && lapse.ChannelLapse? && IsGivenUpBut(original, last, lapse, after)
    requires AreApart(last.ledger.created)
    ensures var whole := Mended(original, last, lapse, after);
      && IsGivenUp(original, last, whole) && IsCostOf(original, last, lapse, whole, after)
      && forall u :: u != lapse.table ==> ViewOf(whole, u) == ViewOf(after, u)
  {
    var t, whole := lapse.table, Mended(original, last, lapse, after);
    var c := last.ledger.created[t];
    assert c !in Homes(original).Values;
    forall u
      ensures IsTableGivenUp(original, last, whole, u)
      ensures ViewOf(whole, u) == ViewOf(after, u)
      ensures At(whole.stored.schemas, u) == ReturnedAt(original, last, u)
    {
      assert IsTableGivenUpBut(original, last, lapse, after, u);
      assert At(after.stored.schemas, u) == ReturnedAt(original, last, u);
      assert u in Homes(original) ==> Homes(original)[u] in Homes(original).Values;
    }
    assert UndoneChannels(original, last.ledger) == UndoneChannelsBut(original, last.ledger, lapse) + {c};
  }

  lemma IndexMended(original: Project, last: Job, lapse: Lapse, after: World)
    requires lapse.IndexLapse? && IsGivenUpBut(original, last, lapse, after)
    ensures var whole := Mended(original, last, lapse, after);
      && IsGivenUp(original, last, whole) && IsCostOf(original, last, lapse, whole, after)
      && forall u :: u != lapse.table ==> ViewOf(whole, u) == ViewOf(after, u)
  {
    var t, whole := lapse.table, Mended(original, last, lapse, after);
    forall u
      ensures IsTableGivenUp(original, last, whole, u)
      ensures u != t ==> ViewOf(whole, u) == ViewOf(after, u)
      ensures At(whole.stored.schemas, u) == ReturnedAt(original, last, u)
    {
      assert IsTableGivenUpBut(original, last, lapse, after, u);
      assert At(after.stored.schemas, u) == ReturnedAt(original, last, u);
      ShareOfWith(after.entries, t, {}, u);
    }
    assert IsTableGivenUpBut(original, last, lapse, after, t);
    ShareOfWith(after.entries, t, {}, t);
    assert UndoneChannelsBut(original, last.ledger, lapse) == UndoneChannels(original, last.ledger);
  }

  lemma ChannelsMended(original: Project, last: Job, lapse: Lapse, after: World)
    requires lapse != ProjectLapse && IsGivenUpBut(original, last, lapse, after)
    requires lapse.ChannelLapse? ==>
      last.ledger.created[lapse.table] in last.world.stored.channels && AreApart(last.ledger.created)
    ensures lapse.ChannelLapse? ==> lapse.table in last.ledger.created && lapse.table !in Homes(original)
    ensures after.stored.channels.Keys ==
      Mended(original, last, lapse, after).stored.channels.Keys
        + if lapse.ChannelLapse? then {last.ledger.created[lapse.table]} else {}
  {
    if lapse.RowsLapse? {
      assert IsTableGivenUpBut(original, last, lapse, after, lapse.table);
    } else if lapse.ChannelLapse? {
      assert last.ledger.created[lapse.table] !in UndoneChannelsBut(original, last.ledger, lapse);
    }
  }

  lemma MendedIsWhole(original: Project, last: Job, lapse: Lapse, after: World)
    requires IsReturnable(original, last) && AreApart(last.ledger.created) && lapse != ProjectLapse
    requires IsGivenUpBut(original, last, lapse, after)
    ensures var whole := Mended(original, last, lapse, after);
      && IsGivenUp(original, last, whole) && IsCostOf(original, last, lapse, whole, after)
      && forall u :: Some(u) != LapsedTable(lapse) ==> ViewOf(whole, u) == ViewOf(after, u)
  {
    match lapse
    case NoLapse => NothingLapsed(original, last, after);
    case RowsLapse(_) => RowsMended(original, last, lapse, after);
    case SchemaLapse(_) => SchemaMended(original, last, lapse, after);
    case RemovalLapse(_) => SchemaMended(original, last, lapse, after);
    case ChannelLapse(_) => ChannelMended(original, last, lapse, after);
    case IndexLapse(_) => IndexMended(original, last, lapse, after);
  }

  /**
   * Any other call of the way back that throws costs no more than what it was for: there is a world that the migration
   * would have left if it had not thrown, and every other table is as it is there. The table itself lacks the rows from
   * some point on, or keeps the definition or the index entries of the moment the migration stopped; a channel that
   * could not be deleted is left without a table.
   */
  lemma LapseCostsOneTable(before: World, migration: string, ops: seq<Operation>, up: bool,
                           mentions: (string, string) -> bool, error: Option<MigrationError>, reason: MigrationError,
                           last: Job, lapse: Lapse, after: World)
    returns (whole: World)
    requires IsStart(before) && lapse != ProjectLapse && error.Some?
    requires IsExecutedBut(before, migration, ops, up, mentions, error, reason, last, lapse, after)
    ensures error == Some(reason) && IsExecuted(before, migration, ops, up, mentions, error, last, whole)
    ensures forall t :: Some(t) != LapsedTable(lapse) ==> ViewOf(after, t) == ViewOf(whole, t)
    ensures IsCostOf(before.stored.project, last, lapse, whole, after)
    ensures lapse.ChannelLapse? ==> lapse.table in last.ledger.created && lapse.table !in Homes(before.stored.project)
    ensures after.stored.channels.Keys ==
      whole.stored.channels.Keys + if lapse.ChannelLapse? then {last.ledger.created[lapse.table]} else {}
  {
    var original := before.stored.project;
    StoppedTracks(before, ops, mentions, reason, last);
    TracksMeans(before.stored, last);
    TracksReturnable(before.stored, last);
    MendedIsWhole(original, last, lapse, after);
    ChannelsMended(original, last, lapse, after);
    whole := Mended(original, last, lapse, after);
  }

  /**
   * A table whose removal could not be announced has a schema and no channel: no migration can create or drop it again.
   */
  lemma UnannouncedRemovalSticks(before: World, migration: string, ops: seq<Operation>, up: bool,
                                 mentions: (string, string) -> bool, error: Option<MigrationError>,
                                 reason: MigrationError, last: Job, t: string, after: World)
    requires IsStart(before)
    requires IsExecutedBut(before, migration, ops, up, mentions, error, reason, last, RemovalLapse(t), after)
    ensures t !in Homes(after.stored.project) && (IsStuck(after, t) <==> t in last.world.stored.schemas)
  {
    assert At(after.stored.schemas, t) == At(last.world.stored.schemas, t);
    assert t !in Homes(before.stored.project);
  }
}
