/** Why running the rollback actions in reverse restores a transaction's tables, and when it does not. */
module Rollback {
  import opened Wrappers
  import opened Rows
  import opened Tables
  import opened Journal

  /** A one-to-one correspondence between the message ids of two tables. */
  datatype Renaming = Renaming(to: map<nat, nat>, back: map<nat, nat>)

  /** The tables hold the same rows, the same number of times, up to message ids. */
  ghost predicate IsRenaming(r: Renaming, a: map<nat, Row>, b: map<nat, Row>) {
    && r.to.Keys == a.Keys && r.back.Keys == b.Keys
    && (forall x :: x in a ==> r.to[x] in b && r.back[r.to[x]] == x && b[r.to[x]] == a[x])
    && (forall y :: y in b ==> r.back[y] in a && r.to[r.back[y]] == y)
  }

  ghost predicate HoldSameRows(a: map<nat, Row>, b: map<nat, Row>) {
    exists r :: IsRenaming(r, a, b)
  }

  /** The ids in `ids` are the same on both sides. */
  ghost predicate Fixes(r: Renaming, ids: set<nat>) {
    forall id :: id in ids ==> id in r.to && r.to[id] == id
  }

  ghost function IdSet(olds: seq<Edit>): set<nat> {
    set i | 0 <= i < |olds| :: olds[i].id
  }

  ghost function PatchRows(rows: map<nat, Row>, ids: set<nat>, patch: Row): map<nat, Row> {
    map id | id in rows :: if id in ids then rows[id] + patch else rows[id]
  }

  /** The rows in `ids` have the same index entries on both sides. */
  ghost predicate SameEntries(a: Table, b: Table, ids: set<nat>) {
    forall id {:trigger EntriesOf(b, id)} :: id in ids ==> EntriesOf(a, id) == EntriesOf(b, id)
  }

  // ----- Undoing one entry

  lemma UndoAdded(s: Store, u: Store, r: Renaming, id: nat, row: Row, written: set<nat>) returns (r': Renaming)
    requires id !in s.table.rows && IsRenaming(r, s.table.rows[id := row], u.table.rows)
    requires Fixes(r, written + {id}) && id !in written
    ensures IsRenaming(r', s.table.rows, (u.table.rows - {id})) && Fixes(r', written) && id in u.table.rows
  {
    r' := Renaming(r.to - {id}, r.back - {id});
    assert s.table.rows[id := row] - {id} == s.table.rows;
  }

  lemma {:induction false} UndoRemoved(schema: Schema, s: Store, u: Store, r: Renaming, olds: seq<Edit>,
                                       written: set<nat>, uuid: Value, now: Value)
    returns (r': Renaming)
    requires IsFair(schema, s, written) && IsFair(schema, u, written) && AreCurrent(s.table, olds)
    requires forall i :: 0 <= i < |olds| ==> IsComplete(schema.columns, olds[i].row)
    requires IsRenaming(r, s.table.rows - IdSet(olds), u.table.rows) && Fixes(r, written) && written !! IdSet(olds)
    requires SameEntries(s.table, u.table, written)
    ensures IsRenaming(r', s.table.rows, InsertedAll(schema, u, olds, uuid, now).table.rows) && Fixes(r', written)
    ensures IsFair(schema, InsertedAll(schema, u, olds, uuid, now), written)
    ensures SameEntries(s.table, InsertedAll(schema, u, olds, uuid, now).table, written)
    decreases |olds|
  {
    if olds == [] {
      r' := r;
      assert s.table.rows - IdSet(olds) == s.table.rows;
    } else {
      RestCurrent(s.table, olds);
      var u1, r1 := ReinsertOne(schema, s, u, r, olds, written, uuid, now);
      r' := UndoRemoved(schema, s, u1, r1, olds[1..], written, uuid, now);
    }
  }

  lemma {:induction false} ReinsertOne(schema: Schema, s: Store, u: Store, r: Renaming, olds: seq<Edit>,
                                       written: set<nat>, uuid: Value, now: Value)
    returns (u1: Store, r1: Renaming)
    requires IsFair(schema, s, written) && IsFair(schema, u, written) && AreCurrent(s.table, olds) && olds != []
    requires IsComplete(schema.columns, olds[0].row)
    requires IsRenaming(r, s.table.rows - IdSet(olds), u.table.rows) && Fixes(r, written) && written !! IdSet(olds)
    requires SameEntries(s.table, u.table, written)
    ensures IsFair(schema, u1, written) && SameEntries(s.table, u1.table, written)
    ensures IsRenaming(r1, s.table.rows - IdSet(olds[1..]), u1.table.rows) && Fixes(r1, written)
    ensures InsertedAll(schema, u, olds, uuid, now) == InsertedAll(schema, u1, olds[1..], uuid, now)
  {
    var id, row := olds[0].id, olds[0].row;
    RemainingIds(olds);
    RowFacts(schema, u, written, id);
    CompleteUnchanged(schema.columns, row, uuid, now);
    ReinsertAccepted(schema, s, u, r, id, IdSet(olds), written);
    NoEntriesYet(schema, u, written, u.nextId);
    WrittenFair(schema, u, u.nextId, row, None, u.nextId + 1, written, written);
    u1, r1 := Inserted(schema, u, row), Renaming(r.to[id := u.nextId], r.back[u.nextId := id]);
    ExtendRenaming(r, s.table.rows, IdSet(olds), id, u.table.rows, u.nextId);
    OthersKeepEntries(schema, s.table, u.table, written, u.nextId, row);
    assert IdSet(olds) - {id} == IdSet(olds[1..]);
  }

  lemma OthersKeepEntries(schema: Schema, a: Table, b: Table, ids: set<nat>, id: nat, row: Row)
    requires SameEntries(a, b, ids) && id !in ids
    ensures SameEntries(a, Written(schema, b, id, row), ids)
  {
    forall other | other in ids
      ensures EntriesOf(a, other) == EntriesOf(Written(schema, b, id, row), other)
    {
      WrittenEntries(schema, b, id, row, other);
      assert EntriesOf(a, other) == EntriesOf(b, other);
    }
  }

  lemma RowFacts(schema: Schema, u: Store, loose: set<nat>, id: nat)
    requires IsFair(schema, u, loose)
    ensures u.nextId !in u.table.rows && (id in u.table.rows ==> id < u.nextId)
  {
    FairMeans(schema, u, loose);
  }

  lemma RestCurrent(t: Table, olds: seq<Edit>)
    requires AreCurrent(t, olds) && olds != []
    ensures AreCurrent(t, olds[1..]) && IdSet(olds[1..]) <= IdSet(olds)
  {
    RemainingIds(olds);
  }

  lemma RemainingIds(olds: seq<Edit>)
    requires olds != [] && forall i, j :: 0 <= i < j < |olds| ==> olds[i].id != olds[j].id
    ensures IdSet(olds) == {olds[0].id} + IdSet(olds[1..]) && olds[0].id !in IdSet(olds[1..])
  {
    assert forall i :: 0 <= i < |olds[1..]| ==> olds[1..][i] == olds[i + 1];
    assert forall i :: 1 <= i < |olds| ==> olds[i] == olds[1..][i - 1];
  }

  lemma ExtendRenaming(r: Renaming, rows: map<nat, Row>, gone: set<nat>, id: nat, b: map<nat, Row>, newId: nat)
    requires IsRenaming(r, rows - gone, b) && id in gone && id in rows && newId !in b
    ensures IsRenaming(Renaming(r.to[id := newId], r.back[newId := id]), rows - (gone - {id}), b[newId := rows[id]])
  {
    assert (rows - (gone - {id})).Keys == (rows - gone).Keys + {id};
  }

  /** Old entries that were there at the start are in no row's way. */
  lemma OldEntriesFree(schema: Schema, s: Table, u: Table, loose: set<nat>, id: nat, current: Option<nat>)
    requires IsReserved(schema, s) && IsNearlyExact(schema, u, loose) && id in s.rows
    requires forall k :: k in loose && k in u.rows && Some(k) != current && KeysOf(schema, k, u.rows[k]) == {} ==>
      k != id && EntriesOf(u, k) == EntriesOf(s, k)
    ensures IsFree(schema, u, s.rows[id], current)
  {
    forall key | key in u.index && key.id in u.rows && Some(key.id) != current
                 && KeysOf(schema, key.id, u.rows[key.id]) == {}
                 && IsUniqueColumn(schema.columns, key.column) && !IsNullish(Cell(s.rows[id], key.column))
      ensures key.value != Show(s.rows[id][key.column])
    {
      assert key in EntriesOf(u, key.id) && IsExactAt(schema, u, loose, key.id);
      assert key in EntriesOf(s, key.id);
      assert IsReservedAt(schema, s, key, id);
    }
  }

  /** A deleted row's unique values are still free when it is put back. */
  lemma ReinsertAccepted(schema: Schema, s: Store, u: Store, r: Renaming, id: nat, gone: set<nat>, written: set<nat>)
    requires IsFair(schema, s, written) && IsFair(schema, u, written) && id in gone && id in s.table.rows
    requires IsRenaming(r, s.table.rows - gone, u.table.rows) && written !! gone
    requires SameEntries(s.table, u.table, written)
    ensures Refusal(schema, u.table, s.table.rows[id], None).None?
  {
    FairMeans(schema, s, written);
    FairMeans(schema, u, written);
    StillFree(schema, s.table, u.table, r, id, gone);
    OldEntriesFree(schema, s.table, u.table, written, id, None);
    Unrefused(schema, u, written, s.table.rows[id], None);
  }

  lemma StillFree(schema: Schema, s: Table, u: Table, r: Renaming, id: nat, gone: set<nat>)
    requires AreUnique(schema, s) && IsWellFormed(schema) && id in gone && id in s.rows
    requires IsRenaming(r, s.rows - gone, u.rows)
    ensures IsUnclaimed(schema, u, s.rows[id], None)
  {
    forall b, i | b in u.rows && 0 <= i < |schema.columns| && schema.columns[i].unique
                  && !IsNullish(Cell(s.rows[id], schema.columns[i].name))
      ensures Cell(u.rows[b], schema.columns[i].name) != Cell(s.rows[id], schema.columns[i].name)
    {
      assert r.back[b] in s.rows && r.back[b] != id && u.rows[b] == s.rows[r.back[b]];
      DifferentValues(schema, s, id, r.back[b], i);
    }
  }

  lemma DifferentValues(schema: Schema, t: Table, a: nat, b: nat, i: nat)
    requires AreUnique(schema, t) && IsWellFormed(schema) && a in t.rows && b in t.rows && a != b
    requires i < |schema.columns| && schema.columns[i].unique && !IsNullish(Cell(t.rows[a], schema.columns[i].name))
    ensures Cell(t.rows[a], schema.columns[i].name) != Cell(t.rows[b], schema.columns[i].name)
  {
  }

  /** Where the update of `ids` has left the index of a row as it was, it still is. */
  ghost predicate IsKeptAt(schema: Schema, s: Table, u: Table, ids: set<nat>, patch: Row, id: nat) {
    (id in ids ==> id in s.rows && KeysOf(schema, id, s.rows[id] + patch) == {}) ==>
      EntriesOf(u, id) == EntriesOf(s, id)
  }

  ghost predicate AreKept(schema: Schema, s: Table, u: Table, ids: set<nat>, patch: Row, all: set<nat>) {
    forall id {:trigger IsKeptAt(schema, s, u, ids, patch, id)} :: id in all ==> IsKeptAt(schema, s, u, ids, patch, id)
  }

  /** Putting the old rows of an update back, one by one, is never refused. */
  lemma {:induction false} UndoChanged(schema: Schema, s: Store, u: Store, r: Renaming, olds: seq<Edit>, patch: Row,
                                       written: set<nat>)
    returns (back: Store)
    requires IsFair(schema, s, written) && IsFair(schema, u, written + IdSet(olds)) && AreCurrent(s.table, olds)
    requires AssignsUnique(schema, patch) ==> |olds| <= 1
    requires forall i :: 0 <= i < |olds| ==> GainsNoKeys(schema, olds[i], patch)
    requires IsRenaming(r, PatchRows(s.table.rows, IdSet(olds), patch), u.table.rows) && Fixes(r, written + IdSet(olds))
    requires AreKept(schema, s.table, u.table, IdSet(olds), patch, written + IdSet(olds))
    ensures back == u.(table := ReplacedAll(schema, u.table, olds))
    ensures IsRenaming(r, s.table.rows, back.table.rows) && IsFair(schema, back, written)
    ensures SameEntries(s.table, back.table, written)
    decreases |olds|
  {
    if olds == [] {
      NothingPatched(s.table.rows, patch);
      back := u;
      assert written + IdSet(olds) == written;
      NothingKept(schema, s.table, u.table, patch, written);
    } else {
      var u1 := PutBackFirst(schema, s, u, r, olds, patch, written);
      back := UndoChanged(schema, s, u1, r, olds[1..], patch, written);
    }
  }

  lemma NothingPatched(rows: map<nat, Row>, patch: Row)
    ensures IdSet([]) == {} && PatchRows(rows, {}, patch) == rows
  {
  }

  lemma NothingKept(schema: Schema, s: Table, u: Table, patch: Row, written: set<nat>)
    requires AreKept(schema, s, u, {}, patch, written)
    ensures SameEntries(s, u, written)
  {
    forall id | id in written
      ensures EntriesOf(s, id) == EntriesOf(u, id)
    {
      assert IsKeptAt(schema, s, u, {}, patch, id);
    }
  }

  /** After the first row has been put back, the others are still to be. */
  lemma PutBackFirst(schema: Schema, s: Store, u: Store, r: Renaming, olds: seq<Edit>, patch: Row, written: set<nat>)
    returns (u1: Store)
    requires IsFair(schema, s, written) && IsFair(schema, u, written + IdSet(olds)) && AreCurrent(s.table, olds)
    requires olds != []
    requires AssignsUnique(schema, patch) ==> |olds| <= 1
    requires GainsNoKeys(schema, olds[0], patch)
    requires IsRenaming(r, PatchRows(s.table.rows, IdSet(olds), patch), u.table.rows) && Fixes(r, written + IdSet(olds))
    requires AreKept(schema, s.table, u.table, IdSet(olds), patch, written + IdSet(olds))
    ensures IsFair(schema, u1, written + IdSet(olds[1..])) && AreCurrent(s.table, olds[1..])
    ensures Fixes(r, written + IdSet(olds[1..]))
    ensures IsRenaming(r, PatchRows(s.table.rows, IdSet(olds[1..]), patch), u1.table.rows)
    ensures AreKept(schema, s.table, u1.table, IdSet(olds[1..]), patch, written + IdSet(olds[1..]))
    ensures u.(table := ReplacedAll(schema, u.table, olds)) == u1.(table := ReplacedAll(schema, u1.table, olds[1..]))
  {
    u1 := Store(Written(schema, u.table, olds[0].id, olds[0].row), u.nextId);
    PutBackAccepted(schema, s, u, r, olds, patch, written);
    PutBackOne(schema, s, u, r, olds, patch, written);
    PutBackEntries(schema, s, u, olds, patch, written);
    RestCurrent(s.table, olds);
  }

  /** The first row has its old entries again; the entries of the others are what they were. */
  lemma PutBackEntries(schema: Schema, s: Store, u: Store, olds: seq<Edit>, patch: Row, written: set<nat>)
    requires IsFair(schema, s, written) && AreCurrent(s.table, olds) && olds != []
    requires GainsNoKeys(schema, olds[0], patch)
    requires AreKept(schema, s.table, u.table, IdSet(olds), patch, written + IdSet(olds))
    ensures
      var u1 := Written(schema, u.table, olds[0].id, olds[0].row);
      AreKept(schema, s.table, u1, IdSet(olds[1..]), patch, written + IdSet(olds[1..]))
  {
    var first, u1 := olds[0], Written(schema, u.table, olds[0].id, olds[0].row);
    FairMeans(schema, s, written);
    RemainingIds(olds);
    forall id | id in written + IdSet(olds[1..])
      ensures IsKeptAt(schema, s.table, u1, IdSet(olds[1..]), patch, id)
    {
      assert IsKeptAt(schema, s.table, u.table, IdSet(olds), patch, id);
      WrittenEntries(schema, u.table, first.id, first.row, id);
      assert id == first.id ==> IsExactAt(schema, s.table, written, id);
    }
  }

  lemma PutBackOne(schema: Schema, s: Store, u: Store, r: Renaming, olds: seq<Edit>, patch: Row, written: set<nat>)
    requires IsFair(schema, s, written) && IsFair(schema, u, written + IdSet(olds)) && AreCurrent(s.table, olds)
    requires olds != []
    requires IsRenaming(r, PatchRows(s.table.rows, IdSet(olds), patch), u.table.rows) && Fixes(r, IdSet(olds))
    requires Refusal(schema, u.table, olds[0].row, Some(olds[0].id)).None? && GainsNoKeys(schema, olds[0], patch)
    requires AreKept(schema, s.table, u.table, IdSet(olds), patch, written + IdSet(olds))
    ensures olds[0].id in u.table.rows
    ensures IsFair(schema, Store(Written(schema, u.table, olds[0].id, olds[0].row), u.nextId),
                   written + IdSet(olds[1..]))
    ensures IsRenaming(r, PatchRows(s.table.rows, IdSet(olds[1..]), patch), u.table.rows[olds[0].id := olds[0].row])
  {
    var id, row := olds[0].id, olds[0].row;
    RemainingIds(olds);
    assert r.to[id] == id && id in u.table.rows && u.table.rows[id] == row + patch;
    RowFacts(schema, u, written + IdSet(olds), id);
    FairMeans(schema, s, written);
    assert IsExactAt(schema, s.table, written, id) && IsKeptAt(schema, s.table, u.table, IdSet(olds), patch, id);
    WrittenFair(schema, u, id, row, Some(id), u.nextId, written + IdSet(olds), written + IdSet(olds[1..]));
    RestoreOne(r, s.table.rows, IdSet(olds), id, patch, u.table.rows);
    assert IdSet(olds) - {id} == IdSet(olds[1..]);
  }

  lemma RestoreOne(r: Renaming, rows: map<nat, Row>, ids: set<nat>, id: nat, patch: Row, b: map<nat, Row>)
    requires IsRenaming(r, PatchRows(rows, ids, patch), b) && id in rows && id in ids && id in r.to && r.to[id] == id
    ensures IsRenaming(r, PatchRows(rows, ids - {id}, patch), b[id := rows[id]])
  {
    Unpatched(rows, ids, id, patch);
    SameChange(r, PatchRows(rows, ids, patch), b, id, rows[id]);
  }

  lemma Unpatched(rows: map<nat, Row>, ids: set<nat>, id: nat, patch: Row)
    requires id in rows && id in ids
    ensures PatchRows(rows, ids - {id}, patch) == PatchRows(rows, ids, patch)[id := rows[id]]
  {
    assert PatchRows(rows, ids - {id}, patch).Keys == rows.Keys == PatchRows(rows, ids, patch)[id := rows[id]].Keys;
  }

  lemma SameChange(r: Renaming, a: map<nat, Row>, b: map<nat, Row>, id: nat, row: Row)
    requires IsRenaming(r, a, b) && id in a && r.to[id] == id
    ensures IsRenaming(r, a[id := row], b[id := row])
  {
    assert a[id := row].Keys == a.Keys && b[id := row].Keys == b.Keys;
  }

  lemma PutBackAccepted(schema: Schema, s: Store, u: Store, r: Renaming, olds: seq<Edit>, patch: Row, written: set<nat>)
    requires IsFair(schema, s, written) && IsFair(schema, u, written + IdSet(olds)) && AreCurrent(s.table, olds)
    requires olds != []
    requires AssignsUnique(schema, patch) ==> |olds| <= 1
    requires IsRenaming(r, PatchRows(s.table.rows, IdSet(olds), patch), u.table.rows) && Fixes(r, written + IdSet(olds))
    requires AreKept(schema, s.table, u.table, IdSet(olds), patch, written + IdSet(olds))
    ensures Refusal(schema, u.table, olds[0].row, Some(olds[0].id)).None?
  {
    var id, ids := olds[0].id, IdSet(olds);
    FairMeans(schema, s, written);
    FairMeans(schema, u, written + ids);
    StillFreeAfterUpdate(schema, s.table, u.table, r, olds, patch);
    forall k | k in written + ids && k in u.table.rows && k != id && KeysOf(schema, k, u.table.rows[k]) == {}
      ensures EntriesOf(u.table, k) == EntriesOf(s.table, k)
    {
      assert r.to[k] == k && IsKeptAt(schema, s.table, u.table, ids, patch, k);
    }
    OldEntriesFree(schema, s.table, u.table, written + ids, id, Some(id));
    Unrefused(schema, u, written + ids, olds[0].row, Some(id));
  }

  lemma StillFreeAfterUpdate(schema: Schema, s: Table, u: Table, r: Renaming, olds: seq<Edit>, patch: Row)
    requires AreUnique(schema, s) && IsWellFormed(schema) && AreCurrent(s, olds) && olds != []
    requires AssignsUnique(schema, patch) ==> |olds| <= 1
    requires IsRenaming(r, PatchRows(s.rows, IdSet(olds), patch), u.rows) && Fixes(r, IdSet(olds))
    ensures IsUnclaimed(schema, u, olds[0].row, Some(olds[0].id))
  {
    var id := olds[0].id;
    forall b, i | b in u.rows && b != id && 0 <= i < |schema.columns| && schema.columns[i].unique
                  && !IsNullish(Cell(olds[0].row, schema.columns[i].name))
      ensures Cell(u.rows[b], schema.columns[i].name) != Cell(olds[0].row, schema.columns[i].name)
    {
      var a, c := r.back[b], schema.columns[i].name;
      assert id in IdSet(olds) && r.to[id] == id;
      assert a in s.rows && a != id;
      DifferentValues(schema, s, id, a, i);
      PatchedCell(s.rows, olds, patch, a, c);
      if a in IdSet(olds) && c in patch {
        assert !AssignsUnique(schema, patch);
      }
    }
  }

  lemma PatchedCell(rows: map<nat, Row>, olds: seq<Edit>, patch: Row, a: nat, c: string)
    requires a in rows
    ensures Cell(PatchRows(rows, IdSet(olds), patch)[a], c)
      == if a in IdSet(olds) && c in patch then Some(patch[c]) else Cell(rows[a], c)
    ensures a in IdSet(olds) && olds != [] && a != olds[0].id ==> |olds| > 1
  {
  }

  // ----- Going forward

  /** What an update that went through has done to the rows and to their index entries. */
  lemma {:induction false} ReplacedRows(schema: Schema, s: Store, loose: set<nat>, olds: seq<Edit>, patch: Row)
    requires IsFair(schema, s, loose) && AreCurrent(s.table, olds)
    requires ReplaceError(schema, s.table, Patched(olds, patch)).None?
    ensures ReplacedAll(schema, s.table, Patched(olds, patch)).rows == PatchRows(s.table.rows, IdSet(olds), patch)
    ensures IsFair(schema, s.(table := ReplacedAll(schema, s.table, Patched(olds, patch))), loose + IdSet(olds))
    ensures forall id ::
      IsKeptAt(schema, s.table, ReplacedAll(schema, s.table, Patched(olds, patch)), IdSet(olds), patch, id)
    decreases |olds|
  {
    var news := Patched(olds, patch);
    if olds == [] {
      assert PatchRows(s.table.rows, IdSet(olds), patch) == s.table.rows && loose + IdSet(olds) == loose;
    } else {
      var id, row := olds[0].id, olds[0].row + patch;
      RowFacts(schema, s, loose, id);
      WrittenFair(schema, s, id, row, Some(id), s.nextId, loose, loose + {id});
      var s1 := s.(table := Written(schema, s.table, id, row));
      assert news[1..] == Patched(olds[1..], patch);
      RemainingIds(olds);
      RestCurrent(s.table, olds);
      RestStaysCurrent(s.table.rows, s1.table.rows, olds);
      ReplacedRows(schema, s1, loose + {id}, olds[1..], patch);
      assert loose + {id} + IdSet(olds[1..]) == loose + IdSet(olds);
      PatchStep(s.table.rows, IdSet(olds), id, patch);
      ReplacedEntries(schema, s.table, olds, patch, ReplacedAll(schema, s1.table, news[1..]));
    }
  }

  lemma ReplacedEntries(schema: Schema, t: Table, olds: seq<Edit>, patch: Row, after: Table)
    requires AreCurrent(t, olds) && olds != []
    requires
      var t1 := Written(schema, t, olds[0].id, olds[0].row + patch);
      forall id :: IsKeptAt(schema, t1, after, IdSet(olds[1..]), patch, id)
    ensures forall id :: IsKeptAt(schema, t, after, IdSet(olds), patch, id)
  {
    var first := olds[0];
    var t1 := Written(schema, t, first.id, first.row + patch);
    RemainingIds(olds);
    forall id
      ensures IsKeptAt(schema, t, after, IdSet(olds), patch, id)
    {
      assert IsKeptAt(schema, t1, after, IdSet(olds[1..]), patch, id);
      WrittenEntries(schema, t, first.id, first.row + patch, id);
    }
  }

  lemma RestStaysCurrent(before: map<nat, Row>, after: map<nat, Row>, olds: seq<Edit>)
    requires olds != [] && (forall i, j :: 0 <= i < j < |olds| ==> olds[i].id != olds[j].id)
    requires forall i :: 0 <= i < |olds| ==> olds[i].id in before && before[olds[i].id] == olds[i].row
    requires forall id :: id in before && id != olds[0].id ==> id in after && after[id] == before[id]
    ensures forall index :: AreCurrent(Table(after, index), olds[1..])
  {
    assert forall i :: 0 <= i < |olds[1..]| ==> olds[1..][i] == olds[i + 1];
  }

  lemma PatchStep(rows: map<nat, Row>, ids: set<nat>, id: nat, patch: Row)
    requires id in ids && id in rows
    ensures PatchRows(rows[id := rows[id] + patch], ids - {id}, patch) == PatchRows(rows, ids, patch)
  {
    assert rows[id := rows[id] + patch].Keys == rows.Keys;
  }

  lemma {:induction false} DeletedRows(schema: Schema, s: Store, loose: set<nat>, olds: seq<Edit>)
    requires IsFair(schema, s, loose) && AreCurrent(s.table, olds)
    ensures DeletedAll(s.table, IdsOf(olds)).rows == s.table.rows - IdSet(olds)
    ensures IsFair(schema, s.(table := DeletedAll(s.table, IdsOf(olds))), loose)
    ensures SameEntries(s.table, DeletedAll(s.table, IdsOf(olds)), loose - IdSet(olds))
    decreases |olds|
  {
    if olds == [] {
      assert s.table.rows - IdSet(olds) == s.table.rows;
    } else {
      var id := olds[0].id;
      DeletedFair(schema, s, id, loose, loose);
      var s1 := s.(table := Deleted(s.table, id));
      assert IdsOf(olds)[1..] == IdsOf(olds[1..]);
      RemainingIds(olds);
      RestStaysCurrent(s.table.rows, s1.table.rows, olds);
      DeletedRows(schema, s1, loose, olds[1..]);
      assert s.table.rows - {id} - IdSet(olds[1..]) == s.table.rows - IdSet(olds);
      OthersOfDeleted(s.table, id, DeletedAll(s1.table, IdsOf(olds[1..])), loose - IdSet(olds[1..]));
    }
  }

  lemma OthersOfDeleted(t: Table, id: nat, after: Table, ids: set<nat>)
    requires SameEntries(Deleted(t, id), after, ids)
    ensures SameEntries(t, after, ids - {id})
  {
    forall other | other in ids - {id}
      ensures EntriesOf(t, other) == EntriesOf(after, other)
    {
      DeletedEntries(t, id, other);
      assert EntriesOf(Deleted(t, id), other) == EntriesOf(after, other);
    }
  }

  /** A legal entry keeps its table fair. */
  lemma AppliedFair(schema: Schema, s: Store, e: Entry, written: set<nat>)
    requires IsFair(schema, s, written) && IsLegal(schema, s, e)
    ensures IsFair(schema, ApplyTo(schema, s, e), written + WrittenBy(e, e.table))
    ensures e.Added? ==> e.id !in s.table.rows
  {
    match e
    case Added(_, id, row) =>
      RowFacts(schema, s, written, id);
      WrittenFair(schema, s, id, row, None, id + 1, written, written + {id});
    case Changed(_, olds, patch) =>
      ReplacedRows(schema, s, written, olds, patch);
      assert WrittenBy(e, e.table) == IdSet(olds);
    case Removed(_, olds) =>
      DeletedRows(schema, s, written, olds);
      assert written + {} == written;
  }

  /** A disciplined one leaves the rows that were written. */
  lemma WrittenRemain(schema: Schema, s: Store, e: Entry, written: set<nat>)
    requires IsFair(schema, s, written) && IsLegal(schema, s, e) && IsDisciplined(schema, written, e)
    requires written <= s.table.rows.Keys
    ensures written + WrittenBy(e, e.table) <= ApplyTo(schema, s, e).table.rows.Keys
  {
    match e
    case Added(_, id, row) =>
    case Changed(_, olds, patch) => ReplacedRows(schema, s, written, olds, patch);
    case Removed(_, olds) => DeletedRows(schema, s, written, olds);
  }

  // ----- The whole rollback

  ghost predicate IsGoodDb(schemas: map<string, Schema>, db: Db) {
    schemas.Keys == db.Keys && forall t {:trigger db[t]} :: t in db ==> IsGood(schemas[t], db[t])
  }

  /** The tables after a journal. */
  ghost predicate AreFair(schemas: map<string, Schema>, db: Db, journal: seq<Entry>) {
    schemas.Keys == db.Keys && forall t {:trigger db[t]} :: t in db ==> IsFair(schemas[t], db[t], WrittenIn(journal, t))
  }

  lemma NothingLoose(schemas: map<string, Schema>, db: Db)
    ensures AreFair(schemas, db, []) <==> IsGoodDb(schemas, db)
  {
    if schemas.Keys == db.Keys {
      forall t | t in db
        ensures IsFair(schemas[t], db[t], WrittenIn([], t)) <==> IsGood(schemas[t], db[t])
      {
        FairIsGood(schemas[t], db[t]);
      }
    }
  }

  lemma {:induction false} RunFair(schemas: map<string, Schema>, db: Db, journal: seq<Entry>)
    requires IsGoodDb(schemas, db) && IsLegalRun(schemas, db, journal)
    ensures AreFair(schemas, ApplyAll(schemas, db, journal), journal)
  {
    if journal == [] {
      NothingLoose(schemas, db);
    } else {
      var before, e := journal[..|journal| - 1], journal[|journal| - 1];
      LegalLast(schemas, db, journal);
      RunFair(schemas, db, before);
      OneMoreFair(schemas, ApplyAll(schemas, db, before), before, e);
    }
  }

  lemma LegalLast(schemas: map<string, Schema>, db: Db, journal: seq<Entry>)
    requires schemas.Keys == db.Keys && IsLegalRun(schemas, db, journal) && journal != []
    ensures
      var before, e := journal[..|journal| - 1], journal[|journal| - 1];
      var mid := ApplyAll(schemas, db, before);
      && journal == before + [e] && IsLegalRun(schemas, db, before)
      && e.table in mid && IsLegal(schemas[e.table], mid[e.table], e)
      && ApplyAll(schemas, db, journal) == Apply(schemas, mid, e)
  {
  }

  lemma OneMoreFair(schemas: map<string, Schema>, mid: Db, before: seq<Entry>, e: Entry)
    requires AreFair(schemas, mid, before) && e.table in mid && IsLegal(schemas[e.table], mid[e.table], e)
    ensures AreFair(schemas, Apply(schemas, mid, e), before + [e])
  {
    AppliedFair(schemas[e.table], mid[e.table], e, WrittenIn(before, e.table));
    assert (before + [e])[..|before|] == before;
    forall t | t in mid && t != e.table
      ensures WrittenIn(before + [e], t) == WrittenIn(before, t)
    {
      assert WrittenIn(before + [e], t) == WrittenIn(before, t) + {};
    }
  }

  lemma {:induction false} RunRemains(schemas: map<string, Schema>, db: Db, journal: seq<Entry>)
    requires IsGoodDb(schemas, db) && IsLegalRun(schemas, db, journal) && FollowsRules(schemas, journal)
    ensures forall t :: t in db ==> WrittenIn(journal, t) <= ApplyAll(schemas, db, journal)[t].table.rows.Keys
  {
    if journal != [] {
      var before, e := journal[..|journal| - 1], journal[|journal| - 1];
      RunRemains(schemas, db, before);
      RunFair(schemas, db, before);
      var mid := ApplyAll(schemas, db, before);
      WrittenRemain(schemas[e.table], mid[e.table], e, WrittenIn(before, e.table));
    }
  }

  lemma UndoneAdded(schema: Schema, s: Store, u: Store, table: string, id: nat, row: Row, written: set<nat>,
                    uuid: Value, now: Value)
    requires IsFair(schema, u, written + {id}) && id in u.table.rows && id !in written
    requires SameEntries(Written(schema, s.table, id, row), u.table, written)
    ensures var back := Undone(schema, u, DropRow(table, id), uuid, now);
      && back == u.(table := Deleted(u.table, id)) && IsFair(schema, back, written)
      && SameEntries(s.table, back.table, written)
  {
    DeletedFair(schema, u, id, written + {id}, written);
    assert [id][1..] == [] && [id][0] == id;
    assert DeletedAll(u.table, [id]) == DeletedAll(Deleted(u.table, id), [id][1..]);
    forall other | other in written
      ensures EntriesOf(s.table, other) == EntriesOf(Deleted(u.table, id), other)
    {
      WrittenEntries(schema, s.table, id, row, other);
      DeletedEntries(u.table, id, other);
      assert EntriesOf(Written(schema, s.table, id, row), other) == EntriesOf(u.table, other);
    }
  }

  /** Undoing one entry, on a table that matches the state after it up to the ids of re-inserted rows. */
  lemma {:induction false} UndoOne(schema: Schema, s: Store, u: Store, r: Renaming, e: Entry, written: set<nat>,
                                   uuid: Value, now: Value)
    returns (r': Renaming)
    requires IsFair(schema, s, written) && IsFair(schema, u, written + WrittenBy(e, e.table))
    requires IsLegal(schema, s, e) && IsDisciplined(schema, written, e) && written <= s.table.rows.Keys
    requires IsMatched(r, ApplyTo(schema, s, e), u, written + WrittenBy(e, e.table))
    ensures IsMatched(r', s, Undone(schema, u, UndoOf(e), uuid, now), written)
    ensures IsFair(schema, Undone(schema, u, UndoOf(e), uuid, now), written)
  {
    match e
    case Added(table, id, row) =>
      AppliedFair(schema, s, e, written);
      r' := UndoAdded(s, u, r, id, row, written);
      UndoneAdded(schema, s, u, table, id, row, written, uuid, now);
    case Changed(_, olds, patch) =>
      UndoneChanged(schema, s, u, r, e, written, uuid, now);
      r' := r;
    case Removed(_, olds) =>
      DeletedRows(schema, s, written, olds);
      assert written + {} == written && written !! IdSet(olds) && written - IdSet(olds) == written;
      RemovedEntries(s.table, DeletedAll(s.table, IdsOf(olds)), u.table, written);
      r' := UndoRemoved(schema, s, u, r, olds, written, uuid, now);
  }

  lemma RemovedEntries(a: Table, b: Table, c: Table, ids: set<nat>)
    requires SameEntries(a, b, ids) && SameEntries(b, c, ids)
    ensures SameEntries(a, c, ids)
  {
    forall id | id in ids
      ensures EntriesOf(a, id) == EntriesOf(c, id)
    {
      assert EntriesOf(b, id) == EntriesOf(c, id);
    }
  }

  lemma UndoneChanged(schema: Schema, s: Store, u: Store, r: Renaming, e: Entry, written: set<nat>, uuid: Value,
                      now: Value)
    requires IsFair(schema, s, written) && e.Changed? && IsFair(schema, u, written + WrittenBy(e, e.table))
    requires IsLegal(schema, s, e) && IsDisciplined(schema, written, e)
    requires IsMatched(r, ApplyTo(schema, s, e), u, written + WrittenBy(e, e.table))
    ensures IsFair(schema, Undone(schema, u, UndoOf(e), uuid, now), written)
    ensures IsRenaming(r, s.table.rows, Undone(schema, u, UndoOf(e), uuid, now).table.rows)
    ensures SameEntries(s.table, Undone(schema, u, UndoOf(e), uuid, now).table, written)
  {
    ReplacedRows(schema, s, written, e.olds, e.patch);
    assert WrittenBy(e, e.table) == IdSet(e.olds);
    KeptSince(schema, s.table, ApplyTo(schema, s, e).table, u.table, IdSet(e.olds), e.patch, written + IdSet(e.olds));
    var back := UndoChanged(schema, s, u, r, e.olds, e.patch, written);
  }

  lemma KeptSince(schema: Schema, s: Table, t: Table, u: Table, ids: set<nat>, patch: Row, all: set<nat>)
    requires (forall id :: IsKeptAt(schema, s, t, ids, patch, id)) && SameEntries(t, u, all)
    ensures AreKept(schema, s, u, ids, patch, all)
  {
    forall id | id in all
      ensures IsKeptAt(schema, s, u, ids, patch, id)
    {
      assert IsKeptAt(schema, s, t, ids, patch, id) && EntriesOf(t, id) == EntriesOf(u, id);
    }
  }

  ghost predicate IsMatched(r: Renaming, a: Store, b: Store, written: set<nat>) {
    IsRenaming(r, a.table.rows, b.table.rows) && Fixes(r, written) && SameEntries(a.table, b.table, written)
  }

  ghost predicate AreMatched(rs: map<string, Renaming>, a: Db, b: Db, journal: seq<Entry>) {
    && rs.Keys == a.Keys == b.Keys
    && forall t {:trigger IsMatched(rs[t], a[t], b[t], WrittenIn(journal, t))} :: t in rs ==>
         IsMatched(rs[t], a[t], b[t], WrittenIn(journal, t))
  }

  /** What the last entry of a journal adds to it. */
  lemma JournalSnoc(schemas: map<string, Schema>, db: Db, before: seq<Entry>, e: Entry)
    requires IsGoodDb(schemas, db) && IsLegalRun(schemas, db, before + [e]) && FollowsRules(schemas, before + [e])
    ensures e.table in schemas && IsLegalRun(schemas, db, before) && FollowsRules(schemas, before)
    ensures ApplyAll(schemas, db, before + [e])
      == ApplyAll(schemas, db, before)[e.table := ApplyTo(schemas[e.table], ApplyAll(schemas, db, before)[e.table], e)]
    ensures IsLegal(schemas[e.table], ApplyAll(schemas, db, before)[e.table], e)
    ensures IsDisciplined(schemas[e.table], WrittenIn(before, e.table), e)
    ensures forall t :: WrittenIn(before + [e], t) == WrittenIn(before, t) + WrittenBy(e, t)
  {
    assert (before + [e])[..|before|] == before;
  }

  lemma UndoSnoc(schemas: map<string, Schema>, u: Db, before: seq<Entry>, e: Entry, uuid: Value, now: Value)
    requires schemas.Keys == u.Keys && e.table in u
    ensures UndoAll(schemas, u, before + [e], uuid, now)
      == UndoAll(schemas, u[e.table := Undone(schemas[e.table], u[e.table], UndoOf(e), uuid, now)], before, uuid, now)
  {
    assert (before + [e])[..|before|] == before;
  }

  lemma {:induction false} MatchedStep(rs: map<string, Renaming>, r: Renaming, mid: Db, s1: Store, u: Db, v: Store,
                                       before: seq<Entry>, e: Entry)
    requires e.table in mid && AreMatched(rs, mid[e.table := s1], u, before + [e])
    requires IsMatched(r, mid[e.table], v, WrittenIn(before, e.table))
    ensures AreMatched(rs[e.table := r], mid, u[e.table := v], before)
  {
    var after := mid[e.table := s1];
    forall t | t in rs
      ensures IsMatched(rs[e.table := r][t], mid[t], u[e.table := v][t], WrittenIn(before, t))
    {
      if t != e.table {
        assert IsMatched(rs[t], after[t], u[t], WrittenIn(before + [e], t));
        assert (before + [e])[..|before|] == before;
      }
    }
  }

  lemma {:induction false} UndoLast(schemas: map<string, Schema>, mid: Db, before: seq<Entry>, e: Entry, u: Db,
                                    rs: map<string, Renaming>, uuid: Value, now: Value)
    returns (v: Store, r: Renaming)
    requires AreFair(schemas, mid, before) && AreFair(schemas, u, before + [e]) && e.table in mid
    requires IsLegal(schemas[e.table], mid[e.table], e)
    requires IsDisciplined(schemas[e.table], WrittenIn(before, e.table), e)
    requires WrittenIn(before, e.table) <= mid[e.table].table.rows.Keys
    requires AreMatched(rs, mid[e.table := ApplyTo(schemas[e.table], mid[e.table], e)], u, before + [e])
    ensures v == Undone(schemas[e.table], u[e.table], UndoOf(e), uuid, now)
    ensures IsFair(schemas[e.table], v, WrittenIn(before, e.table))
    ensures AreMatched(rs[e.table := r], mid, u[e.table := v], before)
  {
    var t0 := e.table;
    var s1, written := ApplyTo(schemas[t0], mid[t0], e), WrittenIn(before, t0);
    assert IsMatched(rs[t0], mid[t0 := s1][t0], u[t0], WrittenIn(before + [e], t0));
    assert (before + [e])[..|before|] == before;
    r := UndoOne(schemas[t0], mid[t0], u[t0], rs[t0], e, written, uuid, now);
    v := Undone(schemas[t0], u[t0], UndoOf(e), uuid, now);
    MatchedStep(rs, r, mid, s1, u, v, before, e);
  }

  lemma {:induction false} UndoJournal(schemas: map<string, Schema>, db: Db, journal: seq<Entry>, u: Db,
                                       rs: map<string, Renaming>, uuid: Value, now: Value)
    returns (rs': map<string, Renaming>)
    requires IsGoodDb(schemas, db) && IsLegalRun(schemas, db, journal) && FollowsRules(schemas, journal)
    requires AreFair(schemas, u, journal)
    requires AreMatched(rs, ApplyAll(schemas, db, journal), u, journal)
    ensures AreFair(schemas, UndoAll(schemas, u, journal, uuid, now), [])
    ensures AreMatched(rs', db, UndoAll(schemas, u, journal, uuid, now), [])
  {
    if journal == [] {
      rs' := rs;
    } else {
      var before, e := journal[..|journal| - 1], journal[|journal| - 1];
      assert journal == before + [e];
      var u1, rs1 := UndoStep(schemas, db, before, e, u, rs, uuid, now);
      rs' := UndoJournal(schemas, db, before, u1, rs1, uuid, now);
    }
  }

  /** The last rollback action, run first. */
  lemma {:induction false} UndoStep(schemas: map<string, Schema>, db: Db, before: seq<Entry>, e: Entry, u: Db,
                                    rs: map<string, Renaming>, uuid: Value, now: Value)
    returns (u1: Db, rs1: map<string, Renaming>)
    requires IsGoodDb(schemas, db) && IsLegalRun(schemas, db, before + [e]) && FollowsRules(schemas, before + [e])
    requires AreFair(schemas, u, before + [e]) && AreMatched(rs, ApplyAll(schemas, db, before + [e]), u, before + [e])
    ensures IsLegalRun(schemas, db, before) && FollowsRules(schemas, before)
    ensures AreFair(schemas, u1, before) && AreMatched(rs1, ApplyAll(schemas, db, before), u1, before)
    ensures UndoAll(schemas, u, before + [e], uuid, now) == UndoAll(schemas, u1, before, uuid, now)
  {
    var mid := ApplyAll(schemas, db, before);
    BeforeLast(schemas, db, before, e);
    UndoSnoc(schemas, u, before, e, uuid, now);
    var v, r := UndoLast(schemas, mid, before, e, u, rs, uuid, now);
    u1, rs1 := u[e.table := v], rs[e.table := r];
    StaysFair(schemas, u, before, e, v);
  }

  lemma StaysFair(schemas: map<string, Schema>, u: Db, before: seq<Entry>, e: Entry, v: Store)
    requires AreFair(schemas, u, before + [e]) && e.table in u
    requires IsFair(schemas[e.table], v, WrittenIn(before, e.table))
    ensures AreFair(schemas, u[e.table := v], before)
  {
    assert (before + [e])[..|before|] == before;
    forall t | t in u && t != e.table
      ensures IsFair(schemas[t], u[t], WrittenIn(before, t))
    {
      assert WrittenIn(before + [e], t) == WrittenIn(before, t) + {} == WrittenIn(before, t);
    }
  }

  /** The tables before the last entry of a journal. */
  lemma BeforeLast(schemas: map<string, Schema>, db: Db, before: seq<Entry>, e: Entry)
    requires IsGoodDb(schemas, db) && IsLegalRun(schemas, db, before + [e]) && FollowsRules(schemas, before + [e])
    ensures IsLegalRun(schemas, db, before) && FollowsRules(schemas, before) && e.table in schemas
    ensures var mid := ApplyAll(schemas, db, before);
      && AreFair(schemas, mid, before) && WrittenIn(before, e.table) <= mid[e.table].table.rows.Keys
      && IsLegal(schemas[e.table], mid[e.table], e) && IsDisciplined(schemas[e.table], WrittenIn(before, e.table), e)
      && ApplyAll(schemas, db, before + [e]) == mid[e.table := ApplyTo(schemas[e.table], mid[e.table], e)]
  {
    JournalSnoc(schemas, db, before, e);
    RunFair(schemas, db, before);
    RunRemains(schemas, db, before);
  }

  function SameIds(rows: map<nat, Row>): Renaming {
    Renaming(map id | id in rows :: id, map id | id in rows :: id)
  }

  /** Every table matches itself. */
  lemma MatchesItself(db: Db, journal: seq<Entry>) returns (rs: map<string, Renaming>)
    requires forall t :: t in db ==> WrittenIn(journal, t) <= db[t].table.rows.Keys
    ensures AreMatched(rs, db, db, journal)
  {
    rs := map t | t in db :: SameIds(db[t].table.rows);
    forall t | t in rs
      ensures IsMatched(rs[t], db[t], db[t], WrittenIn(journal, t))
    {
      SameIdsMatch(db[t], WrittenIn(journal, t));
    }
  }

  lemma SameIdsMatch(s: Store, ids: set<nat>)
    requires ids <= s.table.rows.Keys
    ensures IsMatched(SameIds(s.table.rows), s, s, ids)
  {
  }

  lemma MatchedHoldSameRows(rs: map<string, Renaming>, a: Db, b: Db)
    requires AreMatched(rs, a, b, [])
    ensures forall t :: t in a ==> HoldSameRows(a[t].table.rows, b[t].table.rows)
  {
    forall t | t in a
      ensures HoldSameRows(a[t].table.rows, b[t].table.rows)
    {
      assert IsMatched(rs[t], a[t], b[t], WrittenIn([], t));
    }
  }

  /**
   * When a transaction that kept the rules is rolled back, every table holds the rows it started with, its index is
   * exact again and its unique columns are unique.
   */
  lemma RollbackRestores(schemas: map<string, Schema>, db: Db, journal: seq<Entry>, uuid: Value, now: Value)
    requires IsGoodDb(schemas, db) && IsLegalRun(schemas, db, journal) && FollowsRules(schemas, journal)
    ensures
      var restored := UndoAll(schemas, ApplyAll(schemas, db, journal), journal, uuid, now);
      && IsGoodDb(schemas, restored)
      && forall t :: t in db ==> HoldSameRows(db[t].table.rows, restored[t].table.rows)
  {
    RunFair(schemas, db, journal);
    RunRemains(schemas, db, journal);
    var after := ApplyAll(schemas, db, journal);
    var rs := MatchesItself(after, journal);
    var rs' := UndoJournal(schemas, db, journal, after, rs, uuid, now);
    NothingLoose(schemas, UndoAll(schemas, after, journal, uuid, now));
    MatchedHoldSameRows(rs', db, UndoAll(schemas, after, journal, uuid, now));
  }

  // ----- A multi-row update that fails part-way

  /** `validateRow` cannot tell two valid rows of the table apart once the same patch is on them. */
  lemma {:induction false} PatchedValidAlike(columns: seq<Column>, a: Row, b: Row, patch: Row)
    requires ValidateRow(columns, a).None? && ValidateRow(columns, b).None?
    ensures ValidateRow(columns, a + patch).None? <==> ValidateRow(columns, b + patch).None?
  {
    if columns != [] {
      PatchedValidAlike(columns[1..], a, b, patch);
    }
  }

  lemma PatchedUnclaimed(schema: Schema, t: Table, id: nat, patch: Row)
    requires IsWellFormed(schema) && AreUnique(schema, t) && id in t.rows && !AssignsUnique(schema, patch)
    ensures IsUnclaimed(schema, t, t.rows[id] + patch, Some(id))
  {
    var row := t.rows[id] + patch;
    forall b, i | b in t.rows && b != id && 0 <= i < |schema.columns| && schema.columns[i].unique
                  && !IsNullish(Cell(row, schema.columns[i].name))
      ensures Cell(t.rows[b], schema.columns[i].name) != Cell(row, schema.columns[i].name)
    {
      assert IsNullish(Cell(patch, schema.columns[i].name));
      assert schema.columns[i].name !in patch;
      DifferentValues(schema, t, id, b, i);
    }
  }

  lemma PatchAccepted(schema: Schema, s: Store, loose: set<nat>, id: nat, patch: Row)
    requires IsFair(schema, s, loose) && id in s.table.rows && !AssignsUnique(schema, patch)
    requires ValidateRow(schema.columns, s.table.rows[id] + patch).None?
    ensures Refusal(schema, s.table, s.table.rows[id] + patch, Some(id)).None?
    ensures IsFair(schema, s.(table := Written(schema, s.table, id, s.table.rows[id] + patch)), loose + {id})
  {
    FairMeans(schema, s, loose);
    PatchedUnclaimed(schema, s.table, id, patch);
    PatchedFree(schema, s.table, id, patch);
    Unrefused(schema, s, loose, s.table.rows[id] + patch, Some(id));
    RowFacts(schema, s, loose, id);
    WrittenFair(schema, s, id, s.table.rows[id] + patch, Some(id), s.nextId, loose, loose + {id});
  }

  lemma PatchedFree(schema: Schema, t: Table, id: nat, patch: Row)
    requires IsReserved(schema, t) && id in t.rows && !AssignsUnique(schema, patch)
    ensures IsFree(schema, t, t.rows[id] + patch, Some(id))
  {
    var row := t.rows[id] + patch;
    forall key | key in t.index && key.id in t.rows && key.id != id
                 && IsUniqueColumn(schema.columns, key.column) && !IsNullish(Cell(row, key.column))
      ensures key.value != Show(row[key.column])
    {
      assert IsReservedAt(schema, t, key, id) && IsNullish(Cell(patch, key.column));
    }
  }

  lemma BothValid(schema: Schema, s: Store, loose: set<nat>, olds: seq<Edit>)
    requires IsFair(schema, s, loose) && AreCurrent(s.table, olds)
    ensures forall i :: 0 <= i < |olds| ==> ValidateRow(schema.columns, olds[i].row).None?
  {
    FairMeans(schema, s, loose);
  }

  /** An update that assigns no unique column either fails on its first row or on none. */
  lemma {:induction false} UpdateAllOrNothing(schema: Schema, s: Store, loose: set<nat>, olds: seq<Edit>, patch: Row)
    requires IsFair(schema, s, loose) && AreCurrent(s.table, olds) && !AssignsUnique(schema, patch)
    requires olds != [] ==> ValidateRow(schema.columns, olds[0].row + patch).None?
    ensures ReplaceError(schema, s.table, Patched(olds, patch)).None?
    decreases |olds|
  {
    if olds != [] {
      var id, row := olds[0].id, olds[0].row + patch;
      var s1 := s.(table := Written(schema, s.table, id, row));
      PatchAccepted(schema, s, loose, id, patch);
      RestCurrent(s.table, olds);
      RestStaysCurrent(s.table.rows, s1.table.rows, olds);
      if |olds| > 1 {
        BothValid(schema, s, loose, olds);
        PatchedValidAlike(schema.columns, olds[0].row, olds[1].row, patch);
      }
      UpdateAllOrNothing(schema, s1, loose + {id}, olds[1..], patch);
      assert Patched(olds, patch)[1..] == Patched(olds[1..], patch);
    }
  }

  /** An update that fails has written nothing, unless it gives several rows a value for a unique column. */
  lemma FailedUpdateWroteNothing(schema: Schema, s: Store, loose: set<nat>, olds: seq<Edit>, patch: Row)
    requires IsFair(schema, s, loose) && AreCurrent(s.table, olds)
    requires AssignsUnique(schema, patch) ==> |olds| <= 1
    requires ReplaceError(schema, s.table, Patched(olds, patch)).Some?
    ensures ReplacedAll(schema, s.table, Patched(olds, patch)) == s.table
  {
    var news := Patched(olds, patch);
    assert |news| == 1 ==> news[1..] == [];
    if |olds| > 1 && Refusal(schema, s.table, news[0].row, Some(news[0].id)).None? {
      UpdateAllOrNothing(schema, s, loose, olds, patch);
    }
  }

  // ----- Why the rules are needed

  lemma {:induction false} RenamingSameSize(r: Renaming, a: map<nat, Row>, b: map<nat, Row>)
    requires IsRenaming(r, a, b)
    ensures |a.Keys| == |b.Keys|
    decreases |a.Keys|
  {
    assert forall y :: y in b.Keys ==> r.back[y] in a.Keys;
    if a.Keys != {} {
      var x :| x in a;
      var y := r.to[x];
      RenamingSameSize(Renaming(r.to - {x}, r.back - {y}), a - {x}, b - {y});
      assert (a - {x}).Keys == a.Keys - {x} && (b - {y}).Keys == b.Keys - {y};
    }
  }

  lemma OneMoreRow(rows: map<nat, Row>, id: nat, row: Row)
    requires id !in rows
    ensures !HoldSameRows(rows, rows[id := row])
  {
    var bigger := rows[id := row];
    assert bigger.Keys == rows.Keys + {id};
    forall r | IsRenaming(r, rows, bigger)
      ensures |rows.Keys| == |bigger.Keys|
    {
      RenamingSameSize(r, rows, bigger);
    }
  }

  lemma DeleteAfterInsert(schema: Schema, s: Store, row: Row)
    requires IsGood(schema, s)
    ensures s.nextId !in s.table.rows
    ensures Deleted(Written(schema, s.table, s.nextId, row), s.nextId) == s.table
  {
    GoodMeans(schema, s);
    var back := Deleted(Written(schema, s.table, s.nextId, row), s.nextId);
    assert back.rows == s.table.rows;
    assert back.index == s.table.index;
  }

  /**
   * A row inserted and then deleted by the same transaction survives its rollback: the undo of the delete inserts it
   * again under a new id, which the undo of the insert does not know.
   */
  lemma InsertThenDeleteLeavesRow(schema: Schema, s: Store, row: Row, uuid: Value, now: Value)
    requires IsGood(schema, s) && Refusal(schema, s.table, row, None).None? && IsComplete(schema.columns, row)
    ensures
      var added, removed := Added("t", s.nextId, row), Removed("t", [Edit(s.nextId, row)]);
      var after := ApplyTo(schema, ApplyTo(schema, s, added), removed);
      var restored := Undone(schema, Undone(schema, after, UndoOf(removed), uuid, now), UndoOf(added), uuid, now);
      restored.table.rows == s.table.rows[s.nextId + 1 := row] && !HoldSameRows(s.table.rows, restored.table.rows)
  {
    var n, olds := s.nextId, [Edit(s.nextId, row)];
    var mid, ids := Inserted(schema, s, row), IdsOf(olds);
    DeleteAfterInsert(schema, s, row);
    assert ids[0] == n && ids[1..] == [] && olds[1..] == [];
    assert DeletedAll(mid.table, ids) == DeletedAll(Deleted(mid.table, n), ids[1..]) == s.table;
    var after := Store(s.table, n + 1);
    CompleteUnchanged(schema.columns, row, uuid, now);
    var half := Inserted(schema, after, row);
    assert InsertedAll(schema, after, olds, uuid, now) == InsertedAll(schema, half, olds[1..], uuid, now) == half;
    assert DeletedAll(half.table, [n]) == half.table;
    GoodMeans(schema, s);
    OneMoreRow(s.table.rows, n + 1, row);
  }

  ghost function Holding(rows: map<nat, Row>, row: Row): map<nat, Row> {
    map id | id in rows && rows[id] == row :: rows[id]
  }

  lemma RenamingOfHolding(r: Renaming, a: map<nat, Row>, b: map<nat, Row>, row: Row)
    requires IsRenaming(r, a, b)
    ensures |Holding(a, row).Keys| == |Holding(b, row).Keys|
  {
    var x, y := Holding(a, row), Holding(b, row);
    var part := Renaming(map id | id in x :: r.to[id], map id | id in y :: r.back[id]);
    RenamingSameSize(part, x, y);
  }

  lemma HoldingOneMore(rows: map<nat, Row>, id: nat, added: Row, row: Row)
    requires id !in rows
    ensures |Holding(rows[id := added], row).Keys| == |Holding(rows, row).Keys| + if added == row then 1 else 0
  {
    assert Holding(rows[id := added], row).Keys == if added == row then Holding(rows, row).Keys + {id}
                                                   else Holding(rows, row).Keys;
  }

  lemma MovedUnchanged(rows: map<nat, Row>, id: nat, row: Row, newId: nat)
    requires id !in rows && newId !in rows
    ensures HoldSameRows(rows[id := row], rows[newId := row])
  {
    var a, b := rows[id := row], rows[newId := row];
    var to := map x | x in a :: if x == id then newId else x;
    var back := map y | y in b :: if y == newId then id else y;
    assert IsRenaming(Renaming(to, back), a, b);
  }

  /** A row that comes back under another id is the same row exactly when its content is the same. */
  lemma MovedRow(rows: map<nat, Row>, id: nat, row: Row, newId: nat, newRow: Row)
    requires id !in rows && newId !in rows
    ensures HoldSameRows(rows[id := row], rows[newId := newRow]) <==> row == newRow
  {
    if row == newRow {
      MovedUnchanged(rows, id, row, newId);
    } else {
      var a, b := rows[id := row], rows[newId := newRow];
      HoldingOneMore(rows, id, row, row);
      HoldingOneMore(rows, newId, newRow, row);
      forall r | IsRenaming(r, a, b)
        ensures |Holding(a, row).Keys| == |Holding(b, row).Keys|
      {
        RenamingOfHolding(r, a, b, row);
      }
    }
  }

  lemma ReinsertedUnderNewId(schema: Schema, mid: Store, id: nat, uuid: Value, now: Value)
    requires IsFair(schema, mid, {id}) && id in mid.table.rows && IsComplete(schema.columns, mid.table.rows[id])
    ensures mid.nextId !in mid.table.rows
    ensures
      var row := mid.table.rows[id];
      InsertedAll(schema, mid.(table := Deleted(mid.table, id)), [Edit(id, row)], uuid, now).table.rows ==
        (mid.table.rows - {id})[mid.nextId := row]
  {
    var row, after := mid.table.rows[id], mid.(table := Deleted(mid.table, id));
    FairMeans(schema, mid, {id});
    DeletedFair(schema, mid, id, {id}, {});
    FairMeans(schema, after, {});
    CompleteUnchanged(schema.columns, row, uuid, now);
    StillFree(schema, mid.table, after.table, SameIds(after.table.rows), id, {id});
    OldEntriesFree(schema, mid.table, after.table, {}, id, None);
    Unrefused(schema, after, {}, row, None);
    assert [Edit(id, row)][1..] == [];
  }

  /**
   * A row updated and then deleted by the same transaction comes back as the update left it, under a new id which the
   * undo of the update does not know: the rollback restores the table exactly when the update changed nothing.
   */
  lemma UpdateThenDeleteKeepsUpdate(schema: Schema, s: Store, id: nat, patch: Row, uuid: Value, now: Value)
    requires IsGood(schema, s) && id in s.table.rows
    requires Refusal(schema, s.table, s.table.rows[id] + patch, Some(id)).None?
    requires IsComplete(schema.columns, s.table.rows[id] + patch)
    ensures
      var row := s.table.rows[id];
      var changed, removed := Changed("t", [Edit(id, row)], patch), Removed("t", [Edit(id, row + patch)]);
      var after := ApplyTo(schema, ApplyTo(schema, s, changed), removed);
      var restored := Undone(schema, Undone(schema, after, UndoOf(removed), uuid, now), UndoOf(changed), uuid, now);
      HoldSameRows(s.table.rows, restored.table.rows) <==> row + patch == row
  {
    UpdateThenDeleteLeaves(schema, s, id, patch, uuid, now);
    var row, rest := s.table.rows[id], s.table.rows - {id};
    GoodMeans(schema, s);
    assert rest[id := row] == s.table.rows;
    MovedRow(rest, id, row, s.nextId, row + patch);
  }

  lemma UpdateThenDeleteLeaves(schema: Schema, s: Store, id: nat, patch: Row, uuid: Value, now: Value)
    requires IsGood(schema, s) && id in s.table.rows
    requires Refusal(schema, s.table, s.table.rows[id] + patch, Some(id)).None?
    requires IsComplete(schema.columns, s.table.rows[id] + patch)
    ensures
      var row := s.table.rows[id];
      var changed, removed := Changed("t", [Edit(id, row)], patch), Removed("t", [Edit(id, row + patch)]);
      var after := ApplyTo(schema, ApplyTo(schema, s, changed), removed);
      var restored := Undone(schema, Undone(schema, after, UndoOf(removed), uuid, now), UndoOf(changed), uuid, now);
      restored.table.rows == (s.table.rows - {id})[s.nextId := row + patch]
  {
    var row := s.table.rows[id];
    var next := row + patch;
    var mid := Store(Written(schema, s.table, id, next), s.nextId);
    UpdatedFair(schema, s, id, patch);
    OneRowChanged(schema, s, id, row, patch);
    OneRowRemoved(schema, mid, id, next);
    ReinsertedUnderNewId(schema, mid, id, uuid, now);
    var again := Undone(schema, mid.(table := Deleted(mid.table, id)), Reinsert("t", [Edit(id, next)]), uuid, now);
    GonePutBack(schema, again, id, row, uuid, now);
    assert mid.table.rows - {id} == s.table.rows - {id};
  }

  lemma UpdatedFair(schema: Schema, s: Store, id: nat, patch: Row)
    requires IsGood(schema, s) && id in s.table.rows
    requires Refusal(schema, s.table, s.table.rows[id] + patch, Some(id)).None?
    ensures IsFair(schema, Store(Written(schema, s.table, id, s.table.rows[id] + patch), s.nextId), {id})
  {
    FairIsGood(schema, s);
    RowFacts(schema, s, {}, id);
    WrittenFair(schema, s, id, s.table.rows[id] + patch, Some(id), s.nextId, {}, {id});
  }

  lemma OneRowChanged(schema: Schema, s: Store, id: nat, row: Row, patch: Row)
    requires id in s.table.rows && Refusal(schema, s.table, row + patch, Some(id)).None?
    ensures ApplyTo(schema, s, Changed("t", [Edit(id, row)], patch)) ==
      Store(Written(schema, s.table, id, row + patch), s.nextId)
  {
    assert Patched([Edit(id, row)], patch) == [Edit(id, row + patch)] && [Edit(id, row + patch)][1..] == [];
    var written := Written(schema, s.table, id, row + patch);
    assert ReplacedAll(schema, written, [Edit(id, row + patch)][1..]) == written;
  }

  lemma OneRowRemoved(schema: Schema, s: Store, id: nat, row: Row)
    requires id in s.table.rows
    ensures ApplyTo(schema, s, Removed("t", [Edit(id, row)])) == s.(table := Deleted(s.table, id))
  {
    assert IdsOf([Edit(id, row)]) == [id] && [id][1..] == [];
    assert DeletedAll(Deleted(s.table, id), [id][1..]) == Deleted(s.table, id);
  }

  /** Putting a row back that is not there any more fails, and the failure is swallowed. */
  lemma GonePutBack(schema: Schema, s: Store, id: nat, row: Row, uuid: Value, now: Value)
    requires id !in s.table.rows
    ensures Undone(schema, s, PutBack("t", [Edit(id, row)]), uuid, now) == s
  {
  }

  lemma {:induction false} ConflictRefuses(columns: seq<Column>, schema: Schema, t: Table, row: Row,
                                           current: Option<nat>, i: nat)
    requires i < |columns| && columns[i].unique && !IsNullish(Cell(row, columns[i].name))
    requires Conflicts(schema, t, columns[i].name, row[columns[i].name], current)
    ensures FirstConflict(columns, schema, t, row, current).Some?
  {
    if i > 0 {
      ConflictRefuses(columns[1..], schema, t, row, current, i - 1);
    }
  }

  lemma ChangedInPlace(rows: map<nat, Row>, id: nat, row: Row)
    requires id in rows
    ensures HoldSameRows(rows, rows[id := row]) <==> row == rows[id]
  {
    var rest := rows - {id};
    assert rest[id := rows[id]] == rows && rest[id := row] == rows[id := row];
    MovedRow(rest, id, rows[id], id, row);
  }

  lemma StopsAtSecond(schema: Schema, s: Store, a: Edit, b: Edit, patch: Row, i: nat)
    requires IsGood(schema, s) && AreCurrent(s.table, [a, b])
    requires i < |schema.columns| && schema.columns[i].unique && !IsNullish(Cell(patch, schema.columns[i].name))
    requires !patch[schema.columns[i].name].Obj?
    requires Refusal(schema, s.table, a.row + patch, Some(a.id)).None?
    ensures ReplaceError(schema, s.table, Patched([a, b], patch)).Some?
    ensures ReplacedAll(schema, s.table, Patched([a, b], patch)).rows == s.table.rows[a.id := a.row + patch]
  {
    var news, column := Patched([a, b], patch), schema.columns[i].name;
    var t1 := Written(schema, s.table, a.id, a.row + patch);
    assert [a, b][0].id != [a, b][1].id;
    assert [a, b][0].id in s.table.rows;
    GoodMeans(schema, s);
    WrittenSound(schema, s.table, a.id, a.row + patch, Some(a.id));
    HolderIsFound(schema, t1, column, patch[column], a.id);
    ConflictRefuses(schema.columns, schema, t1, b.row + patch, Some(b.id), i);
    assert news[1..][0] == Edit(b.id, b.row + patch);
    assert ReplacedAll(schema, s.table, news) == ReplacedAll(schema, t1, news[1..]) == t1;
  }

  /**
   * An update giving two rows the same value in a unique column fails on the second one with the first already
   * written. No rollback action has been pushed for it, so the rollback leaves that row as the update made it, and the
   * table holds the rows it started with exactly when the update changed nothing in it.
   */
  lemma UniqueUpdateStopsHalfway(schema: Schema, s: Store, a: Edit, b: Edit, patch: Row, i: nat, uuid: Value,
                                 now: Value)
    requires IsGood(schema, s) && AreCurrent(s.table, [a, b])
    requires i < |schema.columns| && schema.columns[i].unique && !IsNullish(Cell(patch, schema.columns[i].name))
    requires !patch[schema.columns[i].name].Obj?
    requires Refusal(schema, s.table, a.row + patch, Some(a.id)).None?
    ensures
      var schemas, db, partial := map["t" := schema], map["t" := s], HalfUpdate("t", [a, b], patch);
      var restored := UndoAll(schemas, Interrupted(schemas, db, partial), [], uuid, now)["t"];
      && IsFailure(schemas, db, partial)
      && restored.table.rows == s.table.rows[a.id := a.row + patch]
      && (HoldSameRows(s.table.rows, restored.table.rows) <==> a.row + patch == a.row)
  {
    StopsAtSecond(schema, s, a, b, patch, i);
    assert [a, b][0] == a;
    ChangedInPlace(s.table.rows, a.id, a.row + patch);
  }

  /** A row that is put back is accepted, whatever the update has left of its index entries. */
  lemma OnePutBack(schema: Schema, s: Store, id: nat, patch: Row)
    requires IsGood(schema, s) && id in s.table.rows
    requires Refusal(schema, s.table, s.table.rows[id] + patch, Some(id)).None?
    ensures Refusal(schema, Written(schema, s.table, id, s.table.rows[id] + patch), s.table.rows[id], Some(id)).None?
  {
    var row, mid := s.table.rows[id], Store(Written(schema, s.table, id, s.table.rows[id] + patch), s.nextId);
    GoodMeans(schema, s);
    ExactIsReserved(schema, s.table);
    UpdatedFair(schema, s, id, patch);
    FairMeans(schema, mid, {id});
    forall b, i | b in mid.table.rows && b != id && 0 <= i < |schema.columns| && schema.columns[i].unique
                  && !IsNullish(Cell(row, schema.columns[i].name))
      ensures Cell(mid.table.rows[b], schema.columns[i].name) != Cell(row, schema.columns[i].name)
    {
      DifferentValues(schema, s.table, id, b, i);
    }
    OldEntriesFree(schema, s.table, mid.table, {id}, id, Some(id));
    Unrefused(schema, mid, {id}, row, Some(id));
  }

  /**
   * Undoing an update of one row always brings the row back, but its index entries if and only if the row had an
   * indexed value before or got none: a row without one is not indexed when it is put back.
   */
  lemma UndoneUpdateIndex(schema: Schema, s: Store, id: nat, patch: Row, uuid: Value, now: Value)
    requires IsGood(schema, s) && id in s.table.rows
    requires Refusal(schema, s.table, s.table.rows[id] + patch, Some(id)).None?
    ensures
      var changed := Changed("t", [Edit(id, s.table.rows[id])], patch);
      var restored := Undone(schema, ApplyTo(schema, s, changed), UndoOf(changed), uuid, now);
      && restored.table.rows == s.table.rows
      && (IsExact(schema, restored.table) <==> GainsNoKeys(schema, Edit(id, s.table.rows[id]), patch))
  {
    var row := s.table.rows[id];
    var mid := Store(Written(schema, s.table, id, row + patch), s.nextId);
    var back := Store(Written(schema, mid.table, id, row), s.nextId);
    OneRowChanged(schema, s, id, row, patch);
    OnePutBack(schema, s, id, patch);
    assert [Edit(id, row)][1..] == [] && ReplacedAll(schema, back.table, []) == back.table;
    assert Undone(schema, mid, PutBack("t", [Edit(id, row)]), uuid, now) == back;
    UpdatedFair(schema, s, id, patch);
    RowFacts(schema, mid, {id}, id);
    WrittenFair(schema, mid, id, row, Some(id), s.nextId, {id}, {id});
    OneRowExact(schema, s, back, id);
    WrittenEntries(schema, s.table, id, row + patch, id);
    WrittenEntries(schema, mid.table, id, row, id);
  }

  lemma OneRowExact(schema: Schema, s: Store, back: Store, id: nat)
    requires IsGood(schema, s) && IsFair(schema, back, {id}) && back.table.rows == s.table.rows && id in s.table.rows
    ensures IsExact(schema, back.table) <==> EntriesOf(back.table, id) == KeysOf(schema, id, s.table.rows[id])
    ensures EntriesOf(s.table, id) == KeysOf(schema, id, s.table.rows[id])
  {
    FairIsGood(schema, s);
    FairMeans(schema, s, {});
    FairMeans(schema, back, {id});
    ExactEntries(schema, back.table);
    assert IsExactAt(schema, s.table, {}, id);
    if EntriesOf(back.table, id) == KeysOf(schema, id, s.table.rows[id]) {
      forall other
        ensures IsExactAt(schema, back.table, {}, other)
      {
        assert IsExactAt(schema, back.table, {id}, other);
      }
    }
    if IsExact(schema, back.table) {
      assert IsExactAt(schema, back.table, {}, id);
    }
  }

  lemma KeylessPutBack(schema: Schema, s: Store, t1: Store, a: Edit, take: Row, loose: set<nat>)
    requires IsFair(schema, t1, loose) && a.id in t1.table.rows && t1.table.rows[a.id] == a.row
    requires KeysOf(schema, a.id, a.row) == {}
    requires Refusal(schema, t1.table, a.row + take, Some(a.id)).None?
    ensures Refusal(schema, Written(schema, t1.table, a.id, a.row + take), a.row, Some(a.id)).None?
  {
    var t2 := Store(Written(schema, t1.table, a.id, a.row + take), t1.nextId);
    FairMeans(schema, t1, loose);
    WrittenFair(schema, t1, a.id, a.row + take, Some(a.id), t1.nextId, loose, loose + {a.id});
    FairMeans(schema, t2, loose + {a.id});
    forall b, i | b in t2.table.rows && b != a.id && 0 <= i < |schema.columns| && schema.columns[i].unique
                  && !IsNullish(Cell(a.row, schema.columns[i].name))
      ensures Cell(t2.table.rows[b], schema.columns[i].name) != Cell(a.row, schema.columns[i].name)
    {
      DifferentValues(schema, t1.table, a.id, b, i);
    }
    forall key | key in t2.table.index && !IsNullish(Cell(a.row, key.column))
      ensures IndexKey(key.column, Show(a.row[key.column]), a.id) in KeysOf(schema, a.id, a.row)
    {
    }
    Unrefused(schema, t2, loose + {a.id}, a.row, Some(a.id));
  }

  /**
   * Why a row must not get its first indexed value: one update frees a unique value of a row, a second one gives it to
   * a row that had no indexed value, and the transaction throws. The entry that the second row leaves behind when it is
   * put back keeps the first row from being put back, so that it stays as the update made it.
   */
  lemma GainedKeyBlocks(schema: Schema, s: Store, a: Edit, b: Edit, i: nat, free: Row, take: Row, uuid: Value,
                        now: Value)
    requires IsGood(schema, s) && AreCurrent(s.table, [a, b]) && KeysOf(schema, a.id, a.row) == {}
    requires i < |schema.columns| && schema.columns[i].unique && IsIndexed(schema, schema.columns[i].name)
    requires
      var column := schema.columns[i].name;
      !IsNullish(Cell(b.row, column)) && Cell(take, column) == Cell(b.row, column)
      && Cell(b.row + free, column) != Cell(b.row, column)
    requires Refusal(schema, s.table, b.row + free, Some(b.id)).None?
    requires Refusal(schema, Written(schema, s.table, b.id, b.row + free), a.row + take, Some(a.id)).None?
    ensures
      var first, second := Changed("t", [b], free), Changed("t", [a], take);
      var mid := ApplyTo(schema, s, first);
      && IsLegal(schema, s, first) && IsLegal(schema, mid, second)
      && var half := Undone(schema, ApplyTo(schema, mid, second), UndoOf(second), uuid, now);
      var restored := Undone(schema, half, UndoOf(first), uuid, now);
      restored.table.rows == s.table.rows[b.id := b.row + free] && !HoldSameRows(s.table.rows, restored.table.rows)
  {
    var column := schema.columns[i].name;
    assert [a, b][0] == a && [a, b][1] == b;
    var t1 := Store(Written(schema, s.table, b.id, b.row + free), s.nextId);
    var t2 := Store(Written(schema, t1.table, a.id, a.row + take), s.nextId);
    var t3 := Store(Written(schema, t2.table, a.id, a.row), s.nextId);
    OneRowChanged(schema, s, b.id, b.row, free);
    OneRowChanged(schema, t1, a.id, a.row, take);
    OneUpdateLegal(schema, s, b, free);
    OneUpdateLegal(schema, t1, a, take);
    UpdatedFair(schema, s, b.id, free);
    KeylessPutBack(schema, s, t1, a, take, {b.id});
    assert [a][1..] == [] && ReplacedAll(schema, t3.table, []) == t3.table;
    assert Undone(schema, t2, PutBack("t", [a]), uuid, now) == t3;
    StillTaken(schema, t1.table, a, take, i);
    ConflictRefuses(schema.columns, schema, t3.table, b.row, Some(b.id), i);
    assert Undone(schema, t3, PutBack("t", [b]), uuid, now) == t3;
    assert t3.table.rows == s.table.rows[b.id := b.row + free];
    ChangedInPlace(s.table.rows, b.id, b.row + free);
  }

  lemma OneUpdateLegal(schema: Schema, s: Store, a: Edit, patch: Row)
    requires a.id in s.table.rows && s.table.rows[a.id] == a.row
    requires Refusal(schema, s.table, a.row + patch, Some(a.id)).None?
    ensures IsLegal(schema, s, Changed("t", [a], patch))
  {
    assert Patched([a], patch) == [Edit(a.id, a.row + patch)] && [Edit(a.id, a.row + patch)][1..] == [];
    assert ReplaceError(schema, Written(schema, s.table, a.id, a.row + patch), []) == None;
  }

  /** The entry of a value that a row had in between is found by the uniqueness check. */
  lemma StillTaken(schema: Schema, t: Table, a: Edit, take: Row, i: nat)
    requires i < |schema.columns| && IsIndexed(schema, schema.columns[i].name)
    requires !IsNullish(Cell(take, schema.columns[i].name))
    requires KeysOf(schema, a.id, a.row) == {}
    ensures
      var column := schema.columns[i].name;
      var after := Written(schema, Written(schema, t, a.id, a.row + take), a.id, a.row);
      forall id: nat :: id != a.id ==> Conflicts(schema, after, column, take[column], Some(id))
  {
    var column := schema.columns[i].name;
    var after := Written(schema, Written(schema, t, a.id, a.row + take), a.id, a.row);
    var filters := [Filter(column, Eq, take[column])];
    assert filters[..0] + filters[1..] == [];
    assert IndexKey(column, Show(take[column]), a.id) in KeysOf(schema, a.id, a.row + take);
    assert a.id in FoundIds(schema, after, filters);
  }

  lemma OneRowReinserted(schema: Schema, s: Store, id: nat, row: Row, uuid: Value, now: Value)
    ensures InsertedAll(schema, s, [Edit(id, row)], uuid, now) ==
      Inserted(schema, s, ApplyDefaults(schema.columns, row, uuid, now))
  {
    assert [Edit(id, row)][1..] == [];
  }

  lemma OneRowLess(rows: map<nat, Row>, id: nat)
    requires id in rows
    ensures !HoldSameRows(rows, rows - {id})
  {
    var smaller := rows - {id};
    assert smaller.Keys == rows.Keys - {id};
    forall r | IsRenaming(r, rows, smaller)
      ensures |rows.Keys| == |smaller.Keys|
    {
      RenamingSameSize(r, rows, smaller);
    }
  }

  /**
   * A deleted row that misses a default, because the column came after it, gets the default when the rollback inserts
   * it anew: the table holds the rows it started with exactly when the row missed none.
   */
  lemma DeletedRowGetsDefaults(schema: Schema, s: Store, id: nat, uuid: Value, now: Value)
    requires IsGood(schema, s) && id in s.table.rows
    ensures
      var removed := Removed("t", [Edit(id, s.table.rows[id])]);
      var restored := Undone(schema, ApplyTo(schema, s, removed), UndoOf(removed), uuid, now);
      HoldSameRows(s.table.rows, restored.table.rows) <==> IsComplete(schema.columns, s.table.rows[id])
  {
    var row := s.table.rows[id];
    var again, gone := ApplyDefaults(schema.columns, row, uuid, now), s.(table := Deleted(s.table, id));
    var rest := s.table.rows - {id};
    GoodMeans(schema, s);
    OneRowRemoved(schema, s, id, row);
    OneRowReinserted(schema, gone, id, row, uuid, now);
    CompleteUnchanged(schema.columns, row, uuid, now);
    assert rest[id := row] == s.table.rows;
    MovedRow(rest, id, row, s.nextId, again);
    OneRowLess(s.table.rows, id);
    if IsComplete(schema.columns, row) {
      FairIsGood(schema, s);
      MoreLoose(schema, s, {}, {id});
      ReinsertedUnderNewId(schema, s, id, uuid, now);
    }
  }

  // ----- A transaction that throws

  /** What the operation that threw had already written. */
  datatype Partial = Nothing | HalfUpdate(table: string, olds: seq<Edit>, patch: Row)

  ghost function Interrupted(schemas: map<string, Schema>, db: Db, partial: Partial): (r: Db)
    requires schemas.Keys == db.Keys
    ensures r.Keys == db.Keys
  {
    if partial.HalfUpdate? && partial.table in db then
      var s, schema := db[partial.table], schemas[partial.table];
      db[partial.table := s.(table := ReplacedAll(schema, s.table, Patched(partial.olds, partial.patch)))]
    else db
  }

  /** The update really failed, on rows that were there. */
  ghost predicate IsFailure(schemas: map<string, Schema>, db: Db, partial: Partial)
    requires schemas.Keys == db.Keys
  {
    partial.HalfUpdate? ==>
      && partial.table in db && AreCurrent(db[partial.table].table, partial.olds)
      && ReplaceError(schemas[partial.table], db[partial.table].table, Patched(partial.olds, partial.patch)).Some?
  }

  /** The rule for an update that fails. */
  ghost predicate FailureFollowsRules(schemas: map<string, Schema>, partial: Partial) {
    partial.HalfUpdate? ==>
      partial.table in schemas && (AssignsUnique(schemas[partial.table], partial.patch) ==> |partial.olds| <= 1)
  }

  /**
   * A transaction that kept the rules and threw, at whatever operation and for whatever reason, leaves every table with
   * the rows it started with, its index exact and its unique columns unique.
   */
  lemma ThrownTransactionRestores(schemas: map<string, Schema>, db: Db, journal: seq<Entry>, partial: Partial,
                                  uuid: Value, now: Value)
    requires IsGoodDb(schemas, db) && IsLegalRun(schemas, db, journal) && FollowsRules(schemas, journal)
    requires IsFailure(schemas, ApplyAll(schemas, db, journal), partial) && FailureFollowsRules(schemas, partial)
    ensures
      var restored := UndoAll(schemas, Interrupted(schemas, ApplyAll(schemas, db, journal), partial), journal, uuid,
                              now);
      && IsGoodDb(schemas, restored)
      && forall t :: t in db ==> HoldSameRows(db[t].table.rows, restored[t].table.rows)
  {
    var after := ApplyAll(schemas, db, journal);
    RunFair(schemas, db, journal);
    if partial.HalfUpdate? {
      var written := WrittenIn(journal, partial.table);
      FailedUpdateWroteNothing(schemas[partial.table], after[partial.table], written, partial.olds, partial.patch);
      assert Interrupted(schemas, after, partial) == after;
    }
    RollbackRestores(schemas, db, journal, uuid, now);
  }
}
