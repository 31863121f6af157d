/** The change events a committed transaction emits, replayed over the rows it started from. */
module ChangeEvents {
  import opened Wrappers
  import opened Rows
  import opened Tables
  import opened Journal

  /** INSERT has no old row, DELETE has no new row. Rows carry their message id. */
  datatype Change = Change(table: string, newRow: Option<Edit>, oldRow: Option<Edit>)

  type Snapshot = map<string, map<nat, Row>>

  ghost function RowsOf(db: Db): Snapshot {
    map t | t in db :: db[t].table.rows
  }

  function ChangesOf(e: Entry): seq<Change> {
    match e
    case Added(table, id, row) => [Change(table, Some(Edit(id, row)), None)]
    case Changed(table, olds, patch) =>
      var news := Patched(olds, patch);
      seq(|olds|, i requires 0 <= i < |olds| => Change(table, Some(news[i]), Some(olds[i])))
    case Removed(table, olds) =>
      seq(|olds|, i requires 0 <= i < |olds| => Change(table, None, Some(olds[i])))
  }

  function AllChanges(journal: seq<Entry>): seq<Change> {
    if journal == [] then [] else AllChanges(journal[..|journal| - 1]) + ChangesOf(journal[|journal| - 1])
  }

  /** What a subscriber does with one event, going by `_msgId`. */
  function Replayed(rows: map<nat, Row>, c: Change): map<nat, Row> {
    if c.newRow.Some? then rows[c.newRow.value.id := c.newRow.value.row]
    else if c.oldRow.Some? then rows - {c.oldRow.value.id}
    else rows
  }

  function Replay(snapshot: Snapshot, changes: seq<Change>): Snapshot {
    if changes == [] then snapshot
    else
      var c := changes[0];
      Replay(if c.table in snapshot then snapshot[c.table := Replayed(snapshot[c.table], c)]
             else snapshot, changes[1..])
  }

  lemma {:induction false} ReplayAppend(snapshot: Snapshot, a: seq<Change>, b: seq<Change>)
    ensures Replay(snapshot, a + b) == Replay(Replay(snapshot, a), b)
    decreases |a|
  {
    if a == [] {
      assert a + b == b;
    } else {
      var c := a[0];
      assert (a + b)[1..] == a[1..] + b;
      ReplayAppend(if c.table in snapshot then snapshot[c.table := Replayed(snapshot[c.table], c)]
                   else snapshot, a[1..], b);
    }
  }

  /** The events of one table, replayed. */
  function ReplayRows(rows: map<nat, Row>, changes: seq<Change>): map<nat, Row>
    decreases |changes|
  {
    if changes == [] then rows else ReplayRows(Replayed(rows, changes[0]), changes[1..])
  }

  lemma {:induction false} ReplayOneTable(snapshot: Snapshot, t: string, changes: seq<Change>)
    requires t in snapshot && forall i :: 0 <= i < |changes| ==> changes[i].table == t
    ensures Replay(snapshot, changes) == snapshot[t := ReplayRows(snapshot[t], changes)]
    decreases |changes|
  {
    if changes == [] {
      assert snapshot == snapshot[t := snapshot[t]];
    } else {
      var next := snapshot[t := Replayed(snapshot[t], changes[0])];
      ReplayOneTable(next, t, changes[1..]);
      assert next[t := ReplayRows(next[t], changes[1..])] == snapshot[t := ReplayRows(next[t], changes[1..])];
    }
  }

  lemma {:induction false} ReplayChanged(schema: Schema, t: Table, table: string, olds: seq<Edit>, patch: Row)
    requires ReplaceError(schema, t, Patched(olds, patch)).None?
    ensures ReplayRows(t.rows, ChangesOf(Changed(table, olds, patch))) ==
      ReplacedAll(schema, t, Patched(olds, patch)).rows
    decreases |olds|
  {
    if olds != [] {
      var news := Patched(olds, patch);
      var t1 := Written(schema, t, news[0].id, news[0].row);
      assert news[1..] == Patched(olds[1..], patch);
      assert ChangesOf(Changed(table, olds, patch))[1..] == ChangesOf(Changed(table, olds[1..], patch));
      ReplayChanged(schema, t1, table, olds[1..], patch);
    }
  }

  lemma {:induction false} ReplayRemoved(t: Table, table: string, olds: seq<Edit>)
    requires AreCurrent(t, olds)
    ensures ReplayRows(t.rows, ChangesOf(Removed(table, olds))) == DeletedAll(t, IdsOf(olds)).rows
    decreases |olds|
  {
    if olds != [] {
      var t1 := Deleted(t, olds[0].id);
      assert IdsOf(olds)[1..] == IdsOf(olds[1..]);
      assert ChangesOf(Removed(table, olds))[1..] == ChangesOf(Removed(table, olds[1..]));
      assert forall i :: 0 <= i < |olds[1..]| ==> olds[1..][i] == olds[i + 1];
      ReplayRemoved(t1, table, olds[1..]);
    }
  }

  lemma ReplayEntry(schema: Schema, s: Store, e: Entry)
    requires IsLegal(schema, s, e)
    ensures ReplayRows(s.table.rows, ChangesOf(e)) == ApplyTo(schema, s, e).table.rows
  {
    match e
    case Added(table, id, row) =>
      assert ChangesOf(e)[1..] == [];
    case Changed(table, olds, patch) => ReplayChanged(schema, s.table, table, olds, patch);
    case Removed(table, olds) => ReplayRemoved(s.table, table, olds);
  }

  lemma ReplayStep(schemas: map<string, Schema>, mid: Db, e: Entry)
    requires schemas.Keys == mid.Keys && e.table in mid && IsLegal(schemas[e.table], mid[e.table], e)
    ensures Replay(RowsOf(mid), ChangesOf(e)) == RowsOf(Apply(schemas, mid, e))
  {
    ReplayOneTable(RowsOf(mid), e.table, ChangesOf(e));
    ReplayEntry(schemas[e.table], mid[e.table], e);
  }

  /** Folding the events of a commit, in order, over the rows it started from gives exactly the rows it left. */
  lemma {:induction false} CommitReplays(schemas: map<string, Schema>, db: Db, journal: seq<Entry>)
    requires schemas.Keys == db.Keys && IsLegalRun(schemas, db, journal)
    ensures Replay(RowsOf(db), AllChanges(journal)) == RowsOf(ApplyAll(schemas, db, journal))
  {
    if journal != [] {
      var before, e := journal[..|journal| - 1], journal[|journal| - 1];
      CommitReplays(schemas, db, before);
      ReplayAppend(RowsOf(db), AllChanges(before), ChangesOf(e));
      ReplayStep(schemas, ApplyAll(schemas, db, before), e);
    }
  }
}
