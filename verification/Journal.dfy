/** Transactions by compensation: what a transaction did, and what undoing it in reverse gives. */
module Journal {
  import opened Wrappers
  import opened Rows
  import opened Tables

  type Db = map<string, Store>

  /** One completed piece of a transaction, in the order they happened. */
  datatype Entry =
    | Added(table: string, id: nat, row: Row)
    | Changed(table: string, olds: seq<Edit>, patch: Row)
    | Removed(table: string, olds: seq<Edit>)

  /** What the source pushes on `rollbackActions`. */
  datatype Undo =
    | DropRow(table: string, id: nat)
    | PutBack(table: string, olds: seq<Edit>)
    | Reinsert(table: string, olds: seq<Edit>)

  function UndoOf(e: Entry): Undo {
    match e
    case Added(table, id, _) => DropRow(table, id)
    case Changed(table, olds, _) => PutBack(table, olds)
    case Removed(table, olds) => Reinsert(table, olds)
  }

  /** `{ ...row, ...patch }` for every target row. */
  function Patched(olds: seq<Edit>, patch: Row): (news: seq<Edit>)
    ensures |news| == |olds|
    ensures forall i :: 0 <= i < |olds| ==> news[i] == Edit(olds[i].id, olds[i].row + patch)
  {
    seq(|olds|, i requires 0 <= i < |olds| => Edit(olds[i].id, olds[i].row + patch))
  }

  function IdsOf(olds: seq<Edit>): (ids: seq<nat>)
    ensures |ids| == |olds| && forall i :: 0 <= i < |olds| ==> ids[i] == olds[i].id
  {
    seq(|olds|, i requires 0 <= i < |olds| => olds[i].id)
  }

  ghost function ApplyTo(schema: Schema, s: Store, e: Entry): Store {
    match e
    case Added(_, _, row) => Inserted(schema, s, row)
    case Changed(_, olds, patch) => s.(table := ReplacedAll(schema, s.table, Patched(olds, patch)))
    case Removed(_, olds) => s.(table := DeletedAll(s.table, IdsOf(olds)))
  }

  /** Inserting rows anew, each with its defaults filled in; the first refusal ends it. */
  ghost function InsertedAll(schema: Schema, s: Store, olds: seq<Edit>, uuid: Value, now: Value): Store
    decreases |olds|
  {
    if olds == [] then s
    else
      var row := ApplyDefaults(schema.columns, olds[0].row, uuid, now);
      if Refusal(schema, s.table, row, None).Some? then s
      else InsertedAll(schema, Inserted(schema, s, row), olds[1..], uuid, now)
  }

  /** A rollback action; its own failure is swallowed. */
  ghost function Undone(schema: Schema, s: Store, u: Undo, uuid: Value, now: Value): Store {
    match u
    case DropRow(_, id) => s.(table := DeletedAll(s.table, [id]))
    case PutBack(_, olds) => s.(table := ReplacedAll(schema, s.table, olds))
    case Reinsert(_, olds) => InsertedAll(schema, s, olds, uuid, now)
  }

  ghost function Apply(schemas: map<string, Schema>, db: Db, e: Entry): Db
    requires schemas.Keys == db.Keys
  {
    if e.table in db then db[e.table := ApplyTo(schemas[e.table], db[e.table], e)] else db
  }

  ghost function ApplyAll(schemas: map<string, Schema>, db: Db, journal: seq<Entry>): (r: Db)
    requires schemas.Keys == db.Keys
    ensures r.Keys == db.Keys
  {
    if journal == [] then db
    else Apply(schemas, ApplyAll(schemas, db, journal[..|journal| - 1]), journal[|journal| - 1])
  }

  /** The rollback actions of the journal, last one first. */
  ghost function UndoAll(schemas: map<string, Schema>, db: Db, journal: seq<Entry>, uuid: Value, now: Value): (r: Db)
    requires schemas.Keys == db.Keys
    ensures r.Keys == db.Keys
  {
    if journal == [] then db
    else
      var u := UndoOf(journal[|journal| - 1]);
      var next := if u.table in db then db[u.table := Undone(schemas[u.table], db[u.table], u, uuid, now)] else db;
      UndoAll(schemas, next, journal[..|journal| - 1], uuid, now)
  }

  // ----- Tables as the engine leaves them

  ghost predicate IsWellFormed(schema: Schema) {
    forall i :: 0 <= i < |schema.columns| && schema.columns[i].unique ==> schema.columns[i].kind != JsonType
  }

  /** The things the engine keeps true of a table, and an exact index. */
  datatype Aspect = Schemas | Soundness | Exactness | Freshness

  ghost predicate Holds(aspect: Aspect, schema: Schema, s: Store) {
    match aspect
    case Schemas => IsWellFormed(schema)
    case Soundness => IsSound(schema, s.table)
    case Exactness => IsExact(schema, s.table)
    case Freshness => IsFresh(s)
  }

  ghost predicate IsGood(schema: Schema, s: Store) {
    forall aspect {:trigger Holds(aspect, schema, s)} :: Holds(aspect, schema, s)
  }

  lemma GoodMeans(schema: Schema, s: Store)
    requires IsGood(schema, s)
    ensures IsWellFormed(schema) && IsSound(schema, s.table) && IsExact(schema, s.table) && IsFresh(s)
  {
    assert Holds(Schemas, schema, s) && Holds(Soundness, schema, s) && Holds(Exactness, schema, s)
           && Holds(Freshness, schema, s);
  }

  /** The targets of an operation: live rows, each once, as they are. */
  ghost predicate AreCurrent(t: Table, olds: seq<Edit>) {
    && (forall i :: 0 <= i < |olds| ==> olds[i].id in t.rows && t.rows[olds[i].id] == olds[i].row)
    && (forall i, j :: 0 <= i < j < |olds| ==> olds[i].id != olds[j].id)
  }

  /** The entry describes something the engine did without an error. */
  ghost predicate IsLegal(schema: Schema, s: Store, e: Entry) {
    match e
    case Added(_, id, row) => id == s.nextId && Refusal(schema, s.table, row, None).None?
    case Changed(_, olds, patch) =>
      AreCurrent(s.table, olds) && ReplaceError(schema, s.table, Patched(olds, patch)).None?
    case Removed(_, olds) => AreCurrent(s.table, olds)
  }

  ghost predicate AssignsUnique(schema: Schema, patch: Row) {
    exists i :: 0 <= i < |schema.columns| && schema.columns[i].unique && !IsNullish(Cell(patch, schema.columns[i].name))
  }

  /** Ids a piece of the journal wrote in a table. */
  ghost function WrittenBy(e: Entry, table: string): set<nat> {
    if e.table != table then {}
    else match e
      case Added(_, id, _) => {id}
      case Changed(_, olds, _) => set i | 0 <= i < |olds| :: olds[i].id
      case Removed(_, _) => {}
  }

  ghost function WrittenIn(journal: seq<Entry>, table: string): set<nat> {
    if journal == [] then {} else WrittenIn(journal[..|journal| - 1], table) + WrittenBy(journal[|journal| - 1], table)
  }

  /** A row without an indexed value gets none. */
  ghost predicate GainsNoKeys(schema: Schema, target: Edit, patch: Row) {
    KeysOf(schema, target.id, target.row) == {} ==> KeysOf(schema, target.id, target.row + patch) == {}
  }

  /**
   * The rules under which compensation works: a row the transaction wrote is not deleted by it, nor one that misses a
   * default; a non-null value for a unique column goes to one row at most; no row gets its first indexed value.
   */
  ghost predicate IsDisciplined(schema: Schema, written: set<nat>, e: Entry) {
    match e
    case Added(_, _, _) => true
    case Changed(_, olds, patch) =>
      && (AssignsUnique(schema, patch) ==> |olds| <= 1)
      && (forall i :: 0 <= i < |olds| ==> GainsNoKeys(schema, olds[i], patch))
    case Removed(_, olds) =>
      forall i :: 0 <= i < |olds| ==> olds[i].id !in written && IsComplete(schema.columns, olds[i].row)
  }

  ghost predicate IsLegalRun(schemas: map<string, Schema>, db: Db, journal: seq<Entry>)
    requires schemas.Keys == db.Keys
  {
    journal != [] ==>
      var before, e := journal[..|journal| - 1], journal[|journal| - 1];
      && IsLegalRun(schemas, db, before)
      && e.table in schemas
      && IsLegal(schemas[e.table], ApplyAll(schemas, db, before)[e.table], e)
  }

  ghost predicate FollowsRules(schemas: map<string, Schema>, journal: seq<Entry>) {
    journal != [] ==>
      var before, e := journal[..|journal| - 1], journal[|journal| - 1];
      && FollowsRules(schemas, before)
      && e.table in schemas && IsDisciplined(schemas[e.table], WrittenIn(before, e.table), e)
  }

  // ----- Tables in the middle of a transaction

  function EntriesOf(t: Table, id: nat): set<IndexKey> {
    set key | key in t.index && key.id == id
  }

  /** The index of a row is exact; if it has no indexed value and is one of `loose`, it may have kept old entries. */
  ghost predicate IsExactAt(schema: Schema, t: Table, loose: set<nat>, id: nat) {
    id in t.rows && (id !in loose || KeysOf(schema, id, t.rows[id]) != {}) ==>
      EntriesOf(t, id) == KeysOf(schema, id, t.rows[id])
  }

  ghost predicate IsNearlyExact(schema: Schema, t: Table, loose: set<nat>) {
    forall id {:trigger IsExactAt(schema, t, loose, id)} :: IsExactAt(schema, t, loose, id)
  }

  /** An entry of a unique column, even an old one, keeps its value from every other row. */
  ghost predicate IsReservedAt(schema: Schema, t: Table, key: IndexKey, b: nat) {
    key in t.index && b in t.rows && b != key.id && IsUniqueColumn(schema.columns, key.column)
    ==> IsNullish(Cell(t.rows[b], key.column)) || Show(t.rows[b][key.column]) != key.value
  }

  ghost predicate IsReserved(schema: Schema, t: Table) {
    forall key, b {:trigger IsReservedAt(schema, t, key, b)} :: IsReservedAt(schema, t, key, b)
  }

  datatype Grace = Rules | Contents | NearExactness | Reservation

  ghost predicate HoldsLoosely(grace: Grace, schema: Schema, s: Store, loose: set<nat>) {
    match grace
    case Rules => IsWellFormed(schema) && IsFresh(s)
    case Contents => IsSound(schema, s.table)
    case NearExactness => IsNearlyExact(schema, s.table, loose)
    case Reservation => IsReserved(schema, s.table)
  }

  /** A table as a transaction leaves it that has written the rows in `loose`. */
  ghost predicate IsFair(schema: Schema, s: Store, loose: set<nat>) {
    forall grace {:trigger HoldsLoosely(grace, schema, s, loose)} :: HoldsLoosely(grace, schema, s, loose)
  }

  lemma FairMeans(schema: Schema, s: Store, loose: set<nat>)
    ensures IsFair(schema, s, loose) <==>
      && IsWellFormed(schema) && IsFresh(s) && IsSound(schema, s.table)
      && IsNearlyExact(schema, s.table, loose) && IsReserved(schema, s.table)
  {
    assert IsFair(schema, s, loose) ==>
      && HoldsLoosely(Rules, schema, s, loose) && HoldsLoosely(Contents, schema, s, loose)
      && HoldsLoosely(NearExactness, schema, s, loose) && HoldsLoosely(Reservation, schema, s, loose);
  }

  lemma ExactEntries(schema: Schema, t: Table)
    ensures IsExact(schema, t) ==> IsNearlyExact(schema, t, {})
    ensures IsNearlyExact(schema, t, {}) && IsGrounded(schema, t) ==> IsExact(schema, t)
  {
    if IsNearlyExact(schema, t, {}) && IsGrounded(schema, t) {
      forall key
        ensures key in t.index <==> key.id in t.rows && key in KeysOf(schema, key.id, t.rows[key.id])
      {
        assert IsExactAt(schema, t, {}, key.id);
        assert key in t.index <==> key in EntriesOf(t, key.id);
      }
    }
  }

  lemma ExactIsReserved(schema: Schema, t: Table)
    requires IsWellFormed(schema) && IsSound(schema, t) && IsExact(schema, t)
    ensures IsReserved(schema, t)
  {
    forall key, b
      ensures IsReservedAt(schema, t, key, b)
    {
      if key in t.index && b in t.rows && b != key.id && IsUniqueColumn(schema.columns, key.column)
         && !IsNullish(Cell(t.rows[b], key.column)) {
        var i :| 0 <= i < |schema.columns| && schema.columns[i].name == key.column && schema.columns[i].unique;
        DifferentShown(schema, t, key.id, b, i);
      }
    }
  }

  /** Two rows that hold values of a unique column show different texts in it. */
  lemma DifferentShown(schema: Schema, t: Table, a: nat, b: nat, i: nat)
    requires IsWellFormed(schema) && AreValid(schema, t) && AreUnique(schema, t) && a in t.rows && b in t.rows && a != b
    requires i < |schema.columns| && schema.columns[i].unique
    requires !IsNullish(Cell(t.rows[a], schema.columns[i].name)) && !IsNullish(Cell(t.rows[b], schema.columns[i].name))
    ensures Show(t.rows[a][schema.columns[i].name]) != Show(t.rows[b][schema.columns[i].name])
  {
    var column := schema.columns[i];
    ValidRowTyped(schema.columns, t.rows[a], i);
    ValidRowTyped(schema.columns, t.rows[b], i);
    if Show(t.rows[a][column.name]) == Show(t.rows[b][column.name]) {
      ShowInjective(t.rows[a][column.name], t.rows[b][column.name], column.kind);
    }
  }

  /** With no row that may have kept old entries, the table is good. */
  lemma FairIsGood(schema: Schema, s: Store)
    ensures IsFair(schema, s, {}) <==> IsGood(schema, s)
  {
    FairMeans(schema, s, {});
    ExactEntries(schema, s.table);
    if IsGood(schema, s) {
      GoodMeans(schema, s);
      ExactIsReserved(schema, s.table);
    }
  }

  lemma MoreLoose(schema: Schema, s: Store, loose: set<nat>, more: set<nat>)
    requires IsFair(schema, s, loose) && loose <= more
    ensures IsFair(schema, s, more)
  {
    FairMeans(schema, s, loose);
    FairMeans(schema, s, more);
    forall id
      ensures IsExactAt(schema, s.table, more, id)
    {
      assert IsExactAt(schema, s.table, loose, id);
    }
  }

  // ----- Writing keeps tables fair

  lemma WrittenEntries(schema: Schema, t: Table, id: nat, row: Row, other: nat)
    ensures EntriesOf(Written(schema, t, id, row), other)
      == if other == id && KeysOf(schema, id, row) != {} then KeysOf(schema, id, row) else EntriesOf(t, other)
  {
  }

  lemma DeletedEntries(t: Table, id: nat, other: nat)
    ensures EntriesOf(Deleted(t, id), other) == if other == id then {} else EntriesOf(t, other)
  {
  }

  /** What the uniqueness check has found out about a unique indexed column. */
  lemma IndexedIsFree(schema: Schema, t: Table, row: Row, current: Option<nat>, column: string, other: nat)
    requires FirstConflict(schema.columns, schema, t, row, current).None? && IsUniqueColumn(schema.columns, column)
    requires IsIndexed(schema, column) && !IsNullish(Cell(row, column)) && other in t.rows && Some(other) != current
    ensures IndexKey(column, Show(row[column]), other) !in t.index
  {
    var i :| 0 <= i < |schema.columns| && schema.columns[i].name == column && schema.columns[i].unique;
    NoConflictAt(schema.columns, schema, t, row, current, i);
    var filters := [Filter(column, Eq, row[column])];
    assert filters[..0] + filters[1..] == [];
    assert other !in FoundIds(schema, t, filters);
  }

  lemma WrittenReserved(schema: Schema, t: Table, id: nat, row: Row, current: Option<nat>)
    requires IsSound(schema, t) && IsReserved(schema, t) && Refusal(schema, t, row, current).None?
    requires current == Some(id) || (current == None && id !in t.rows)
    ensures IsReserved(schema, Written(schema, t, id, row))
  {
    var after := Written(schema, t, id, row);
    forall key, b
      ensures IsReservedAt(schema, after, key, b)
    {
      if key in after.index && b in after.rows && b != key.id && IsUniqueColumn(schema.columns, key.column) {
        if key in KeysOf(schema, id, row) {
          OwnKeyReserved(schema, t, id, row, current, key, b);
        } else {
          OldKeyReserved(schema, t, id, row, current, key, b);
        }
      }
    }
  }

  lemma OwnKeyReserved(schema: Schema, t: Table, id: nat, row: Row, current: Option<nat>, key: IndexKey, b: nat)
    requires IsSound(schema, t) && Refusal(schema, t, row, current).None?
    requires current == Some(id) || (current == None && id !in t.rows)
    requires key in KeysOf(schema, id, row) && b in t.rows && b != id && IsUniqueColumn(schema.columns, key.column)
    ensures IsNullish(Cell(t.rows[b], key.column)) || Show(t.rows[b][key.column]) != key.value
  {
    IndexedIsFree(schema, t, row, current, key.column, b);
    if !IsNullish(Cell(t.rows[b], key.column)) {
      assert IndexKey(key.column, Show(t.rows[b][key.column]), b) in KeysOf(schema, b, t.rows[b]);
      assert KeysOf(schema, b, t.rows[b]) <= t.index;
    }
  }

  lemma OldKeyReserved(schema: Schema, t: Table, id: nat, row: Row, current: Option<nat>, key: IndexKey, b: nat)
    requires IsSound(schema, t) && IsReserved(schema, t) && Refusal(schema, t, row, current).None?
    requires current == Some(id) || (current == None && id !in t.rows)
    requires key in t.index && b in t.rows.Keys + {id} && b != key.id && IsUniqueColumn(schema.columns, key.column)
    ensures
      var rows := t.rows[id := row]; IsNullish(Cell(rows[b], key.column)) || Show(rows[b][key.column]) != key.value
  {
    assert IsReservedAt(schema, t, key, b);
    if b == id && !IsNullish(Cell(row, key.column)) {
      IndexedIsFree(schema, t, row, current, key.column, key.id);
    }
  }

  lemma WrittenFair(schema: Schema, s: Store, id: nat, row: Row, current: Option<nat>, nextId: nat, loose: set<nat>,
                    after: set<nat>)
    requires IsFair(schema, s, loose) && Refusal(schema, s.table, row, current).None?
    requires current == Some(id) || (current == None && id !in s.table.rows)
    requires id < nextId && s.nextId <= nextId && loose <= after + {id}
    requires id in after || KeysOf(schema, id, row) != {} || EntriesOf(s.table, id) == {}
    ensures IsFair(schema, Store(Written(schema, s.table, id, row), nextId), after)
  {
    var written := Store(Written(schema, s.table, id, row), nextId);
    FairMeans(schema, s, loose);
    FairMeans(schema, written, after);
    WrittenSound(schema, s.table, id, row, current);
    WrittenReserved(schema, s.table, id, row, current);
    forall other
      ensures IsExactAt(schema, written.table, after, other)
    {
      WrittenEntries(schema, s.table, id, row, other);
      assert IsExactAt(schema, s.table, loose, other);
    }
  }

  lemma NoEntriesYet(schema: Schema, s: Store, loose: set<nat>, id: nat)
    requires IsFair(schema, s, loose) && id !in s.table.rows
    ensures EntriesOf(s.table, id) == {}
  {
    FairMeans(schema, s, loose);
  }

  lemma DeletedFair(schema: Schema, s: Store, id: nat, loose: set<nat>, after: set<nat>)
    requires IsFair(schema, s, loose) && loose <= after + {id}
    ensures IsFair(schema, s.(table := Deleted(s.table, id)), after)
  {
    var rest := s.(table := Deleted(s.table, id));
    FairMeans(schema, s, loose);
    FairMeans(schema, rest, after);
    DeletedSound(schema, s.table, id);
    forall other
      ensures IsExactAt(schema, rest.table, after, other)
    {
      DeletedEntries(s.table, id, other);
      assert IsExactAt(schema, s.table, loose, other);
    }
    forall key, b
      ensures IsReservedAt(schema, rest.table, key, b)
    {
      assert IsReservedAt(schema, s.table, key, b);
    }
  }

  // ----- When a row is accepted

  /** No other row holds one of the row's unique values. */
  ghost predicate IsUnclaimed(schema: Schema, t: Table, row: Row, current: Option<nat>) {
    forall b, i :: b in t.rows && Some(b) != current && 0 <= i < |schema.columns| && schema.columns[i].unique
      && !IsNullish(Cell(row, schema.columns[i].name))
      ==> Cell(t.rows[b], schema.columns[i].name) != Cell(row, schema.columns[i].name)
  }

  /** No old entry of another row has one of the row's unique values. */
  ghost predicate IsFree(schema: Schema, t: Table, row: Row, current: Option<nat>) {
    forall key ::
      && key in t.index && key.id in t.rows && Some(key.id) != current && KeysOf(schema, key.id, t.rows[key.id]) == {}
      && IsUniqueColumn(schema.columns, key.column) && !IsNullish(Cell(row, key.column))
      ==> key.value != Show(row[key.column])
  }

  /** The uniqueness check raises no false alarm. */
  lemma UnclaimedAccepted(schema: Schema, t: Table, loose: set<nat>, row: Row, current: Option<nat>,
                          columns: seq<Column>)
    requires IsWellFormed(schema) && AreValid(schema, t) && IsNearlyExact(schema, t, loose)
    requires ValidateRow(schema.columns, row).None? && IsUnclaimed(schema, t, row, current)
    requires IsFree(schema, t, row, current)
    requires forall i :: 0 <= i < |columns| ==> columns[i] in schema.columns
    ensures FirstConflict(columns, schema, t, row, current).None?
  {
    if columns != [] {
      UnclaimedAccepted(schema, t, loose, row, current, columns[1..]);
      var column := columns[0];
      assert column in schema.columns;
      if column.unique && !IsNullish(Cell(row, column.name)) {
        var i :| 0 <= i < |schema.columns| && schema.columns[i] == column;
        forall id: nat | Some(id) != current
          ensures id !in FoundIds(schema, t, [Filter(column.name, Eq, row[column.name])])
        {
          IsNotFound(schema, t, loose, row, current, i, id);
        }
      }
    }
  }

  lemma IsNotFound(schema: Schema, t: Table, loose: set<nat>, row: Row, current: Option<nat>, i: nat, id: nat)
    requires IsWellFormed(schema) && AreValid(schema, t) && IsNearlyExact(schema, t, loose)
    requires ValidateRow(schema.columns, row).None? && IsUnclaimed(schema, t, row, current)
    requires IsFree(schema, t, row, current)
    requires i < |schema.columns| && schema.columns[i].unique && !IsNullish(Cell(row, schema.columns[i].name))
    requires Some(id) != current
    ensures id !in FoundIds(schema, t, [Filter(schema.columns[i].name, Eq, row[schema.columns[i].name])])
  {
    var column, value := schema.columns[i], row[schema.columns[i].name];
    var f := Filter(column.name, Eq, value);
    if id in t.rows {
      if IndexedFilter(schema, [f]) == None {
        ScanOne(t, f);
      } else {
        var key := IndexKey(column.name, Show(value), id);
        assert IsUniqueColumn(schema.columns, key.column);
        if key in t.index && KeysOf(schema, id, t.rows[id]) != {} {
          assert IsExactAt(schema, t, loose, id) && key in EntriesOf(t, id);
          ValidRowTyped(schema.columns, t.rows[id], i);
          ValidRowTyped(schema.columns, row, i);
          ShowInjective(t.rows[id][column.name], value, column.kind);
        }
      }
    }
  }

  lemma Unrefused(schema: Schema, s: Store, loose: set<nat>, row: Row, current: Option<nat>)
    requires IsFair(schema, s, loose) && ValidateRow(schema.columns, row).None?
    requires IsUnclaimed(schema, s.table, row, current) && IsFree(schema, s.table, row, current)
    ensures Refusal(schema, s.table, row, current).None?
  {
    FairMeans(schema, s, loose);
    UnclaimedAccepted(schema, s.table, loose, row, current, schema.columns);
  }
}
