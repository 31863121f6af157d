/** What a migration works on: the project's record, its schema channel, its table channels and their index. */
module ProjectService {
  import opened Wrappers
  import opened MessageLog
  import opened Rows
  import opened Tables
  import opened QueryEngine
  import opened Migrations
  import opened MigrationSteps

  function Events(log: Log<SchemaEvent>): seq<SchemaEvent> {
    seq(|log|, i requires 0 <= i < |log| => log[i].body)
  }

  lemma EventsSnoc(log: Log<SchemaEvent>, m: Message<SchemaEvent>)
    ensures Events(log + [m]) == Events(log) + [m.body]
    ensures Replay(Events(log + [m])) == After(Replay(Events(log)), m.body)
    ensures Applied(Events(log + [m])) == AppliedAfter(Applied(Events(log)), m.body)
  {
    ReplaySnoc(Events(log), m.body);
  }

  lemma SameIndex(before: set<Entry>, after: set<Entry>, table: string, keys: set<IndexKey>)
    requires Share(after, table) == keys
    requires forall other {:trigger Share(after, other)} :: other != table ==>
      Share(after, other) == Share(before, other)
    ensures after == WithShare(before, table, keys)
  {
    forall e
      ensures e in after <==> e in WithShare(before, table, keys)
    {
      assert e in after <==> e.key in Share(after, e.table);
      assert e in before <==> e.key in Share(before, e.table);
    }
  }

  class ProjectService {
    const schemaChannel: Channel<SchemaEvent>
    const indexManager: IndexManager
    var project: Project
    var channels: map<nat, map<nat, Row>>
    var nextChannel: nat
    /** How many more calls succeed before one throws; `None` when none will. */
    var fuse: Option<nat>

    ghost predicate Valid()
      reads this, schemaChannel
    {
      schemaChannel.Valid() && forall c :: c in channels ==> c < nextChannel
    }

    ghost function State(): Stored
      reads this, schemaChannel
    {
      Stored(project, Replay(Events(schemaChannel.log)), channels)
    }

    /** The migrations that are applied, going by the schema channel. */
    ghost function History(): set<string>
      reads schemaChannel
    {
      Applied(Events(schemaChannel.log))
    }

    ghost function Now(): World
      reads this, schemaChannel, indexManager
    {
      World(State(), History(), indexManager.entries, nextChannel, fuse)
    }

    constructor (schemaChannel: Channel<SchemaEvent>, indexManager: IndexManager)
      requires schemaChannel.Valid()
      ensures Valid() && fuse == None && this.schemaChannel == schemaChannel && this.indexManager == indexManager
      ensures State() == Stored(Project(map[], map[]), Replay(Events(schemaChannel.log)), map[])
    {
      this.schemaChannel, this.indexManager := schemaChannel, indexManager;
      project, channels, nextChannel, fuse := Project(map[], map[]), map[], 0, None;
    }

    /** Any call may be the one that throws. */
    method Call() returns (ok: bool)
      modifies this`fuse
      ensures ok == !Breaks(old(Now())) && Now() == Called(old(Now()))
    {
      ok := fuse != Some(0);
      fuse := if fuse.Some? && fuse.value > 0 then Some(fuse.value - 1) else None;
    }

    /** After the call that threw, `more` calls answer before one throws again, if one does. */
    method Reconnect(more: Option<nat>)
      modifies this`fuse
      ensures Now() == old(Now()).(fuse := more)
    {
      fuse := more;
    }

    method UpdateProject(next: Project) returns (error: Option<MigrationError>)
      requires Valid()
      modifies this`fuse, this`project
      ensures Valid() && Reply(Now(), error) == ProjectSaved(old(Now()), next)
    {
      var ok := Call();
      if !ok {
        return Some(Interrupted);
      }
      project := next;
      error := None;
    }

    method SendEvent(event: SchemaEvent) returns (error: Option<MigrationError>)
      requires Valid()
      modifies this`fuse, schemaChannel
      ensures Valid() && Reply(Now(), error) == EventSent(old(Now()), event)
    {
      var ok := Call();
      if !ok {
        return Some(Interrupted);
      }
      ghost var log := schemaChannel.log;
      var id := schemaChannel.Send(event);
      EventsSnoc(log, Message(id, event));
      error := None;
    }

    /** Reads the whole schema channel backwards, and plays it forwards. */
    method GetSchemas() returns (schemas: map<string, Definition>)
      requires Valid()
      ensures schemas == State().schemas
    {
      var messages := schemaChannel.GetAllMessages();
      schemas := map[];
      var i := |messages|;
      ghost var log := schemaChannel.log;
      while i > 0
        invariant 0 <= i <= |messages| == |log|
        invariant forall k :: 0 <= k < |log| ==> messages[k] == log[|log| - 1 - k]
        invariant schemas == Replay(Events(log[..|log| - i]))
      {
        i := i - 1;
        assert log[..|log| - i] == log[..|log| - i - 1] + [messages[i]];
        EventsSnoc(log[..|log| - i - 1], messages[i]);
        schemas := After(schemas, messages[i].body);
      }
      assert log[..|log|] == log;
    }

    /** `listHistory` and `computeAppliedMigrations`. */
    method ListApplied() returns (applied: set<string>)
      requires Valid()
      ensures applied == History()
    {
      var messages := schemaChannel.GetAllMessages();
      applied := {};
      var i := |messages|;
      ghost var log := schemaChannel.log;
      while i > 0
        invariant 0 <= i <= |messages| == |log|
        invariant forall k :: 0 <= k < |log| ==> messages[k] == log[|log| - 1 - k]
        invariant applied == Applied(Events(log[..|log| - i]))
      {
        i := i - 1;
        assert log[..|log| - i] == log[..|log| - i - 1] + [messages[i]];
        EventsSnoc(log[..|log| - i - 1], messages[i]);
        applied := AppliedAfter(applied, messages[i].body);
      }
      assert log[..|log|] == log;
    }

    method CreateChannel() returns (error: Option<MigrationError>, channel: nat)
      requires Valid()
      modifies this`fuse, this`channels, this`nextChannel
      ensures Valid() && Reply(Now(), error) == ChannelMade(old(Now())) && channel == old(nextChannel)
    {
      channel := nextChannel;
      var ok := Call();
      if !ok {
        return Some(Interrupted), channel;
      }
      channels, nextChannel := channels[channel := map[]], nextChannel + 1;
      error := None;
    }

    /** The channel is created first; when what follows fails, it is left behind. */
    method AddTable(table: string, definition: Definition) returns (error: Option<MigrationError>, channel: nat)
      requires Valid()
      modifies this, schemaChannel
      ensures Valid() && Reply(Now(), error) == TableAdded(old(Now()), table, definition)
      ensures channel == old(nextChannel)
    {
      channel := nextChannel;
      if table in project.live {
        return Some(Conflict), channel;
      }
      error, channel := CreateChannel();
      if error.Some? {
        return;
      }
      error := UpdateProject(Project(project.live[table := channel], project.archived));
      if error.Some? {
        return;
      }
      error := SendEvent(Saved(table, definition));
    }

    method DropIndex(table: string) returns (error: Option<MigrationError>)
      requires Valid()
      modifies this`fuse, indexManager
      ensures Valid() && Reply(Now(), error) == IndexDropped(old(Now()), table)
    {
      var ok := Call();
      if !ok {
        return Some(Interrupted);
      }
      ghost var before := indexManager.entries;
      indexManager.DropTable(table);
      SameIndex(before, indexManager.entries, table, {});
      error := None;
    }

    /** `None` when the call throws, or there is no such channel. */
    method SelectRows(channel: nat) returns (rows: Option<map<nat, Row>>)
      modifies this`fuse
      ensures Now() == Called(old(Now()))
      ensures rows == if Reads(old(Now()), channel) then Some(channels[channel]) else None
    {
      var ok := Call();
      rows := if ok && channel in channels then Some(channels[channel]) else None;
    }

    /** One row of `ReplaceRows`. */
    method WriteRow(table: string, schema: Schema, channel: nat, edit: Edit) returns (error: Option<MigrationError>)
      requires Valid() && channel in channels
      modifies this`fuse, this`channels, indexManager
      ensures Valid() && Reply(Now(), error) == RowWritten(old(Now()), table, schema, channel, edit)
    {
      var ok := Call();
      if !ok {
        return Some(Interrupted);
      }
      var refusal := Refusal(schema, Table(channels[channel], Share(indexManager.entries, table)), edit.row,
                             Some(edit.id));
      if refusal.Some? {
        return Some(Refused(refusal.value));
      }
      if edit.id !in channels[channel] {
        return Some(Refused(NotFound));
      }
      var rows: map<nat, Row> := channels[channel][edit.id := edit.row];
      channels := channels[channel := rows];
      error := WriteKeys(table, schema, edit);
    }

    method WriteKeys(table: string, schema: Schema, edit: Edit) returns (error: Option<MigrationError>)
      requires Valid()
      modifies this`fuse, indexManager
      ensures Valid() && Reply(Now(), error) == RowIndexed(old(Now()), table, schema, edit)
    {
      var values := IndexedValues(schema, edit.id, edit.row);
      if values == [] {
        return None;
      }
      var ok := Call();
      if !ok {
        return Some(Interrupted);
      }
      ghost var before := indexManager.entries;
      indexManager.UpdateIndex(table, edit.id, values);
      SameIndex(before, indexManager.entries, table, Reindexed(schema, Share(before, table), edit.id, edit.row));
      error := None;
    }

    method Least(rows: map<nat, Row>) returns (id: nat)
      requires rows != map[]
      ensures IsLeast(rows.Keys, id)
    {
      var left := rows.Keys;
      id :| id in left;
      left := left - {id};
      while left != {}
        invariant left <= rows.Keys && id in rows
        invariant forall other :: other in rows && other !in left ==> id <= other
        decreases left
      {
        var other :| other in left;
        left := left - {other};
        if other < id {
          id := other;
        }
      }
    }

    /** Rows are written one by one; a failure leaves the first ones written. */
    method ReplaceRows(table: string, schema: Schema, channel: nat, rows: map<nat, Row>)
      returns (error: Option<MigrationError>)
      requires Valid() && channel in channels
      modifies this`fuse, this`channels, indexManager
      ensures Valid() && Reply(Now(), error) == RowsWritten(old(Now()), table, schema, channel, InOrder(rows))
    {
      var left := rows;
      while left != map[]
        invariant Valid() && channel in channels
        invariant RowsWritten(Now(), table, schema, channel, InOrder(left)) ==
          RowsWritten(old(Now()), table, schema, channel, InOrder(rows))
        decreases left.Keys
      {
        var id := Least(left);
        InOrderFirst(left, id);
        error := WriteRow(table, schema, channel, Edit(id, left[id]));
        if error.Some? {
          return;
        }
        left := left - {id};
      }
      error := None;
    }

    method DeleteChannel(channel: nat) returns (error: Option<MigrationError>)
      requires Valid()
      modifies this`fuse, this`channels
      ensures Valid() && Reply(Now(), error) == ChannelDeleted(old(Now()), channel)
    {
      var ok := Call();
      if !ok {
        return Some(Interrupted);
      }
      channels := channels - {channel};
      error := None;
    }

    /** Empties the table's part of the index and fills it from the rows. */
    method RebuildIndexes(table: string, schema: Schema, channel: nat) returns (error: Option<MigrationError>)
      requires Valid()
      modifies this`fuse, indexManager
      ensures Valid() && State() == old(State()) && History() == old(History())
      ensures error == None || (error == Some(Interrupted) && (old(fuse) == None ==> channel !in channels))
      ensures old(fuse) == None ==> fuse == None
      ensures error == None ==>
        channel in channels
        && indexManager.entries == WithShare(old(indexManager.entries), table, TableKeys(schema, channels[channel]))
      ensures error.Some? ==>
        indexManager.entries in {old(indexManager.entries), WithShare(old(indexManager.entries), table, {})}
    {
      error := DropIndex(table);
      if error.Some? {
        return;
      }
      var rows := SelectRows(channel);
      if rows == None {
        return Some(Interrupted);
      }
      var keys := EntriesOf(schema, rows.value);
      var ok := Call();
      if !ok {
        return Some(Interrupted);
      }
      indexManager.AddIndexBatch(table, keys);
      SameIndex(old(indexManager.entries), indexManager.entries, table, TableKeys(schema, channels[channel]));
      error := None;
    }

    method EntriesOf(schema: Schema, rows: map<nat, Row>) returns (keys: seq<IndexKey>)
      ensures (set k | k in keys) == TableKeys(schema, rows)
    {
      keys := [];
      var left := rows.Keys;
      while left != {}
        invariant left <= rows.Keys
        invariant forall k :: k in keys <==> k.id in rows && k.id !in left && IsEntryOf(schema, k.id, rows[k.id], k)
        decreases left
      {
        var id :| id in left;
        var more := EntriesOfRow(schema, id, rows[id]);
        keys := keys + more;
        left := left - {id};
      }
    }

    method EntriesOfRow(schema: Schema, id: nat, row: Row) returns (keys: seq<IndexKey>)
      ensures forall k :: k in keys <==> k.id == id && IsEntryOf(schema, id, row, k)
    {
      keys := [];
      for i := 0 to |schema.indexes|
        invariant forall k ::
          k in keys <==> k.id == id && IsEntryOf(schema, id, row, k) && k.column in schema.indexes[..i]
      {
        var column := schema.indexes[i];
        assert schema.indexes[..i + 1] == schema.indexes[..i] + [column];
        if IsRebuilt(schema, row, column) {
          keys := keys + [IndexKey(column, Show(row[column]), id)];
        }
      }
      assert schema.indexes[..|schema.indexes|] == schema.indexes;
    }
  }

  predicate IsEntryOf(schema: Schema, id: nat, row: Row, key: IndexKey) {
    key.column in schema.indexes && IsRebuilt(schema, row, key.column)
    && key == IndexKey(key.column, Show(row[key.column]), id)
  }
}
