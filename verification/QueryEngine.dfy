/** The field index, and the query engine over one channel and that index. */
module QueryEngine {
  import opened Wrappers
  import opened MessageLog
  import opened Rows
  import opened Tables

  datatype Entry = Entry(table: string, key: IndexKey)

  /** The part of the index that belongs to a table. */
  function Share(entries: set<Entry>, table: string): set<IndexKey> {
    set e | e in entries && e.table == table :: e.key
  }

  lemma ShareOfAdded(entries: set<Entry>, table: string, key: IndexKey)
    ensures Share(entries + {Entry(table, key)}, table) == Share(entries, table) + {key}
    ensures forall other :: other != table ==> Share(entries + {Entry(table, key)}, other) == Share(entries, other)
  {
  }

  class IndexManager {
    var entries: set<Entry>

    ghost function Of(table: string): set<IndexKey>
      reads this
    {
      Share(entries, table)
    }

    /** The entries of every other table are as before. */
    twostate predicate OnlyChanged(table: string)
      reads this
    {
      forall other {:trigger Share(entries, other)} :: other != table ==>
        Share(entries, other) == old(Share(entries, other))
    }

    constructor ()
      ensures entries == {}
    {
      entries := {};
    }

    /** The ids of the entries, in no particular order. */
    method Lookup(table: string, column: string, value: string) returns (ids: seq<nat>)
      ensures forall i, j :: 0 <= i < j < |ids| ==> ids[i] != ids[j]
      ensures forall id :: id in ids <==> IndexKey(column, value, id) in Of(table)
    {
      var left := set e | e in entries && e.table == table && e.key.column == column && e.key.value == value
        :: e.key.id;
      ghost var all := left;
      assert forall id :: id in all <==> Entry(table, IndexKey(column, value, id)) in entries;
      ids := [];
      while left != {}
        invariant forall i, j :: 0 <= i < j < |ids| ==> ids[i] != ids[j]
        invariant forall id :: id in all <==> id in ids || id in left
        invariant forall id :: id in left ==> id !in ids
      {
        var id :| id in left;
        ids, left := ids + [id], left - {id};
      }
    }

    method RemoveIndex(table: string, id: nat)
      modifies this
      ensures Of(table) == WithoutId(old(Of(table)), id) && OnlyChanged(table)
    {
      entries := set e | e in entries && !(e.table == table && e.key.id == id);
    }

    method UpdateIndex(table: string, id: nat, values: seq<(string, string)>)
      modifies this
      ensures Of(table) == WithoutId(old(Of(table)), id) + (set v | v in values :: IndexKey(v.0, v.1, id))
      ensures OnlyChanged(table)
    {
      RemoveIndex(table, id);
      for i := 0 to |values|
        invariant Of(table) == WithoutId(old(Of(table)), id) + (set v | v in values[..i] :: IndexKey(v.0, v.1, id))
        invariant OnlyChanged(table)
      {
        ShareOfAdded(entries, table, IndexKey(values[i].0, values[i].1, id));
        entries := entries + {Entry(table, IndexKey(values[i].0, values[i].1, id))};
        assert values[..i + 1] == values[..i] + [values[i]];
      }
      assert values[..|values|] == values;
    }

    method DropTable(table: string)
      modifies this
      ensures Of(table) == {} && OnlyChanged(table)
    {
      entries := set e | e in entries && e.table != table;
    }

    method AddIndexBatch(table: string, keys: seq<IndexKey>)
      modifies this
      ensures Of(table) == old(Of(table)) + (set k | k in keys) && OnlyChanged(table)
    {
      for i := 0 to |keys|
        invariant Of(table) == old(Of(table)) + (set k | k in keys[..i])
        invariant OnlyChanged(table)
      {
        ShareOfAdded(entries, table, keys[i]);
        entries := entries + {Entry(table, keys[i])};
        assert keys[..i + 1] == keys[..i] + [keys[i]];
      }
      assert keys[..|keys|] == keys;
    }
  }

  /** A select's answer: the found rows, each once, or as many of them as the limit lets through. */
  ghost predicate IsAnswer(rows: Log<Row>, view: map<nat, Row>, ids: set<nat>, limit: Option<nat>) {
    && (forall i, j :: 0 <= i < j < |rows| ==> rows[i].id != rows[j].id)
    && (forall i :: 0 <= i < |rows| ==> rows[i].id in ids && rows[i].id in view && rows[i].body == view[rows[i].id])
    && (limit.Some? ==> |rows| <= limit.value)
    && (limit.None? || |rows| < limit.value ==>
            forall id :: id in ids ==> exists i :: 0 <= i < |rows| && rows[i].id == id)
  }

  function KeepPassing(messages: Log<Row>, filters: seq<Filter>): Log<Row> {
    if messages == [] then []
    else (if PassesAll(messages[0].body, filters) then [messages[0]] else []) + KeepPassing(messages[1..], filters)
  }

  lemma {:induction false} KeptRows(messages: Log<Row>, filters: seq<Filter>)
    requires forall i, j :: 0 <= i < j < |messages| ==> messages[i].id != messages[j].id
    ensures var kept := KeepPassing(messages, filters);
      && (forall i, j :: 0 <= i < j < |kept| ==> kept[i].id != kept[j].id)
      && (forall m :: m in kept <==> m in messages && PassesAll(m.body, filters))
  {
    if messages != [] {
      KeptRows(messages[1..], filters);
      var rest := KeepPassing(messages[1..], filters);
      assert messages == [messages[0]] + messages[1..];
      forall i | 0 <= i < |rest|
        ensures rest[i].id != messages[0].id
      {
        assert rest[i] in messages[1..];
      }
    }
  }

  lemma {:induction false} KeptAscending(messages: Log<Row>, filters: seq<Filter>)
    requires Ascending(messages)
    ensures Ascending(KeepPassing(messages, filters))
  {
    if messages != [] {
      var rest := KeepPassing(messages[1..], filters);
      KeptAscending(messages[1..], filters);
      KeptRows(messages[1..], filters);
      forall i | 0 <= i < |rest|
        ensures messages[0].id < rest[i].id
      {
        assert rest[i] in messages[1..];
      }
    }
  }

  /** The answer goes by ascending id, and the rows found that are not in it come after those that are. */
  ghost predicate IsEarliest(rows: Log<Row>, ids: set<nat>) {
    && Ascending(rows)
    && forall id :: id in ids && (forall i :: 0 <= i < |rows| ==> rows[i].id != id) ==>
         forall i :: 0 <= i < |rows| ==> rows[i].id < id
  }

  lemma EarliestLimited(rows: Log<Row>, view: map<nat, Row>, ids: set<nat>, limit: Option<nat>)
    requires IsAnswer(rows, view, ids, None) && Ascending(rows)
    ensures IsEarliest(Limited(rows, limit), ids)
  {
    var some := Limited(rows, limit);
    forall id | id in ids && (forall i :: 0 <= i < |some| ==> some[i].id != id)
      ensures forall i :: 0 <= i < |some| ==> some[i].id < id
    {
      var k :| 0 <= k < |rows| && rows[k].id == id;
      assert k >= |some| by {
        assert forall i :: 0 <= i < |some| ==> some[i] == rows[i];
      }
    }
  }

  function Limited<T>(rows: seq<T>, limit: Option<nat>): seq<T> {
    if limit.Some? && limit.value < |rows| then rows[..limit.value] else rows
  }

  lemma AnswerLimited(rows: Log<Row>, view: map<nat, Row>, ids: set<nat>, limit: Option<nat>)
    requires IsAnswer(rows, view, ids, None)
    ensures IsAnswer(Limited(rows, limit), view, ids, limit)
  {
  }

  /** Two matches are enough: among two different rows, one is not the current one. */
  lemma TwoMatchesSuffice(rows: Log<Row>, view: map<nat, Row>, ids: set<nat>, current: Option<nat>)
    requires IsAnswer(rows, view, ids, Some(2))
    ensures (exists i :: 0 <= i < |rows| && Some(rows[i].id) != current) <==>
      (exists id :: id in ids && Some(id) != current)
  {
    if |rows| == 2 {
      assert rows[0].id != rows[1].id && rows[0].id in ids && rows[1].id in ids;
    }
  }

  function Outcome(refusal: Option<Error>, m: Message<Row>): Result<Message<Row>, Error> {
    if refusal.Some? then Err(refusal.value) else Ok(m)
  }

  /** The columns and values under which `updateIndexes` enters a row. */
  method IndexedValues(schema: Schema, id: nat, row: Row) returns (values: seq<(string, string)>)
    ensures (set v | v in values :: IndexKey(v.0, v.1, id)) == KeysOf(schema, id, row)
    ensures values == [] <==> KeysOf(schema, id, row) == {}
  {
    values := [];
    for i := 0 to |schema.indexes|
      invariant forall v :: v in values <==>
        exists j :: 0 <= j < i && IsIndexed(schema, schema.indexes[j]) && !IsNullish(Cell(row, schema.indexes[j]))
                    && v == (schema.indexes[j], Show(row[schema.indexes[j]]))
    {
      var column := schema.indexes[i];
      if IsIndexed(schema, column) && !IsNullish(Cell(row, column)) {
        values := values + [(column, Show(row[column]))];
      }
    }
    ghost var keys := set v | v in values :: IndexKey(v.0, v.1, id);
    forall column | column in schema.indexes && IsIndexed(schema, column) && !IsNullish(Cell(row, column))
      ensures IndexKey(column, Show(row[column]), id) in keys
    {
      assert (column, Show(row[column])) in values;
    }
    if values != [] {
      assert IndexKey(values[0].0, values[0].1, id) in keys;
    }
  }

  class QueryEngine {
    const storage: Channel<Row>
    const indexManager: IndexManager
    const table: string
    const schema: Schema

    constructor (storage: Channel<Row>, indexManager: IndexManager, table: string, schema: Schema)
      ensures this.storage == storage && this.indexManager == indexManager && this.table == table
      ensures this.schema == schema
    {
      this.storage, this.indexManager, this.table, this.schema := storage, indexManager, table, schema;
    }

    ghost function State(): Table
      reads storage, indexManager
    {
      Table(storage.View(), indexManager.Of(table))
    }

    method Select(filters: seq<Filter>, limit: Option<nat>) returns (rows: Log<Row>)
      requires storage.Valid()
      ensures IsAnswer(rows, storage.View(), FoundIds(schema, State(), filters), limit)
      ensures IndexedFilter(schema, filters) == None ==> IsEarliest(rows, FoundIds(schema, State(), filters))
    {
      var indexed := IndexedFilter(schema, filters);
      if indexed.Some? {
        rows := SelectByIndex(filters, indexed.value);
      } else {
        rows := SelectByScan(filters);
        EarliestLimited(rows, storage.View(), FoundIds(schema, State(), filters), limit);
      }
      AnswerLimited(rows, storage.View(), FoundIds(schema, State(), filters), limit);
      rows := Limited(rows, limit);
    }

    method SelectByScan(filters: seq<Filter>) returns (rows: Log<Row>)
      requires storage.Valid()
      ensures IsAnswer(rows, storage.View(), ScanIds(State(), filters), None) && Ascending(rows)
    {
      var messages := storage.FetchAllMessages();
      KeptRows(messages, filters);
      KeptAscending(messages, filters);
      rows := KeepPassing(messages, filters);
      forall i | 0 <= i < |rows|
        ensures rows[i].id in ScanIds(State(), filters) && rows[i].body == storage.View()[rows[i].id]
      {
        ContentsMember(storage.log, rows[i]);
      }
      forall id | id in ScanIds(State(), filters)
        ensures exists i :: 0 <= i < |rows| && rows[i].id == id
      {
        var m := Message(id, storage.View()[id]);
        ContentsMember(storage.log, m);
        assert m in rows;
      }
    }

    method SelectByIndex(filters: seq<Filter>, k: nat) returns (rows: Log<Row>)
      requires storage.Valid() && IndexedFilter(schema, filters) == Some(k)
      ensures IsAnswer(rows, storage.View(), FoundIds(schema, State(), filters), None)
    {
      var f, rest := filters[k], filters[..k] + filters[k + 1..];
      var ids := indexManager.Lookup(table, f.column, Show(f.value));
      var messages := GetAll(ids);
      KeptRows(messages, rest);
      rows := KeepPassing(messages, rest);
      assert forall i :: 0 <= i < |rows| ==> rows[i] in messages;
      forall id | id in FoundIds(schema, State(), filters)
        ensures exists i :: 0 <= i < |rows| && rows[i].id == id
      {
        assert id in ids;
        var m := Message(id, storage.View()[id]);
        assert m in messages && m in rows;
      }
    }

    /** The live ones of the messages with the given ids. */
    method GetAll(ids: seq<nat>) returns (messages: Log<Row>)
      requires storage.Valid() && forall i, j :: 0 <= i < j < |ids| ==> ids[i] != ids[j]
      ensures forall j, l :: 0 <= j < l < |messages| ==> messages[j].id != messages[l].id
      ensures forall m :: m in messages <==> m.id in ids && m.id in storage.View() && m.body == storage.View()[m.id]
    {
      messages := [];
      for i := 0 to |ids|
        invariant forall j, l :: 0 <= j < l < |messages| ==> messages[j].id != messages[l].id
        invariant forall m ::
          m in messages <==> m.id in ids[..i] && m.id in storage.View() && m.body == storage.View()[m.id]
      {
        var body := storage.Get(ids[i]);
        if body.Some? {
          messages := messages + [Message(ids[i], body.value)];
        }
        assert ids[..i + 1] == ids[..i] + [ids[i]];
      }
      assert ids[..|ids|] == ids;
    }

    method EnsureUniqueConstraints(row: Row, current: Option<nat>) returns (error: Option<Error>)
      requires storage.Valid()
      ensures error == FirstConflict(schema.columns, schema, State(), row, current)
    {
      var i := 0;
      while i < |schema.columns|
        invariant 0 <= i <= |schema.columns|
        invariant FirstConflict(schema.columns, schema, State(), row, current)
          == FirstConflict(schema.columns[i..], schema, State(), row, current)
      {
        var column := schema.columns[i];
        if column.unique && !IsNullish(Cell(row, column.name)) {
          var filters := [Filter(column.name, Eq, row[column.name])];
          var matches := Select(filters, Some(2));
          TwoMatchesSuffice(matches, storage.View(), FoundIds(schema, State(), filters), current);
          if exists j :: 0 <= j < |matches| && Some(matches[j].id) != current {
            return Some(NotUnique(column.name));
          }
        }
        i := i + 1;
      }
      error := None;
    }

    method UpdateIndexes(id: nat, row: Row)
      modifies indexManager
      ensures indexManager.Of(table) == Reindexed(schema, old(indexManager.Of(table)), id, row)
      ensures indexManager.OnlyChanged(table)
    {
      var values := IndexedValues(schema, id, row);
      if |values| > 0 {
        indexManager.UpdateIndex(table, id, values);
      }
    }

    method Insert(data: Row, uuid: Value, now: Value) returns (r: Result<Message<Row>, Error>)
      requires storage.Valid()
      modifies storage, indexManager
      ensures storage.Valid() && indexManager.OnlyChanged(table)
      ensures
        var row := ApplyDefaults(schema.columns, data, uuid, now);
        && Store(State(), storage.nextId) == Inserted(schema, Store(old(State()), old(storage.nextId)), row)
        && r == Outcome(Refusal(schema, old(State()), row, None), Message(old(storage.nextId), row))
    {
      r := InsertRow(ApplyDefaults(schema.columns, data, uuid, now));
    }

    /** The insertion proper, of a row with its defaults filled in. */
    method InsertRow(row: Row) returns (r: Result<Message<Row>, Error>)
      requires storage.Valid()
      modifies storage, indexManager
      ensures storage.Valid() && indexManager.OnlyChanged(table)
      ensures Store(State(), storage.nextId) == Inserted(schema, Store(old(State()), old(storage.nextId)), row)
      ensures r == Outcome(Refusal(schema, old(State()), row, None), Message(old(storage.nextId), row))
    {
      var refusal := Check(row, None);
      if refusal.Some? {
        return Err(refusal.value);
      }
      var id := storage.Send(row);
      UpdateIndexes(id, row);
      r := Ok(Message(id, row));
    }

    /** `validateRow`, then `ensureUniqueConstraints`. */
    method Check(row: Row, current: Option<nat>) returns (refusal: Option<Error>)
      requires storage.Valid()
      ensures refusal == Refusal(schema, State(), row, current)
    {
      refusal := ValidateRow(schema.columns, row);
      if refusal.None? {
        refusal := EnsureUniqueConstraints(row, current);
      }
    }

    /** Writes the rows one by one; on an error the rows before it stay written. */
    method ReplaceRows(edits: seq<Edit>) returns (error: Option<Error>)
      requires storage.Valid()
      modifies storage, indexManager
      ensures storage.Valid() && storage.nextId == old(storage.nextId) && indexManager.OnlyChanged(table)
      ensures State() == ReplacedAll(schema, old(State()), edits)
      ensures error == ReplaceError(schema, old(State()), edits)
    {
      var i := 0;
      while i < |edits|
        invariant 0 <= i <= |edits|
        invariant storage.Valid() && storage.nextId == old(storage.nextId) && indexManager.OnlyChanged(table)
        invariant ReplacedAll(schema, State(), edits[i..]) == ReplacedAll(schema, old(State()), edits)
        invariant ReplaceError(schema, State(), edits[i..]) == ReplaceError(schema, old(State()), edits)
      {
        error := ReplaceRow(edits[i]);
        if error.Some? {
          return;
        }
        assert edits[i..][1..] == edits[i + 1..];
        i := i + 1;
      }
      error := None;
    }

    method ReplaceRow(edit: Edit) returns (error: Option<Error>)
      requires storage.Valid()
      modifies storage, indexManager
      ensures storage.Valid() && storage.nextId == old(storage.nextId) && indexManager.OnlyChanged(table)
      ensures
        var refusal := Refusal(schema, old(State()), edit.row, Some(edit.id));
        error == if refusal.Some? then refusal else if edit.id !in old(State()).rows then Some(NotFound) else None
      ensures State() == if error.Some? then old(State()) else Written(schema, old(State()), edit.id, edit.row)
    {
      var refusal := Check(edit.row, Some(edit.id));
      if refusal.Some? {
        return refusal;
      }
      var ok := storage.Edit(edit.id, edit.row);
      if !ok {
        return Some(NotFound);
      }
      UpdateIndexes(edit.id, edit.row);
      error := None;
    }

    /** Deletes the rows one by one; a row that is already gone stops it. */
    method DeleteRows(ids: seq<nat>) returns (error: Option<Error>)
      requires storage.Valid()
      modifies storage, indexManager
      ensures storage.Valid() && storage.nextId == old(storage.nextId) && indexManager.OnlyChanged(table)
      ensures State() == DeletedAll(old(State()), ids) && error == DeleteError(old(State()), ids)
    {
      var i := 0;
      while i < |ids|
        invariant 0 <= i <= |ids|
        invariant storage.Valid() && storage.nextId == old(storage.nextId) && indexManager.OnlyChanged(table)
        invariant DeletedAll(State(), ids[i..]) == DeletedAll(old(State()), ids)
        invariant DeleteError(State(), ids[i..]) == DeleteError(old(State()), ids)
      {
        var existing := storage.Get(ids[i]);
        if existing.None? {
          return Some(NotFound);
        }
        storage.Delete({ids[i]});
        indexManager.RemoveIndex(table, ids[i]);
        assert ids[i..][1..] == ids[i + 1..];
        i := i + 1;
      }
      error := None;
    }
  }
}
