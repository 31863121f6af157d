/** What each operation of a migration does to schemas, rows, channels and index, cell by cell. */
module MigrationEffects {
  import opened Wrappers
  import opened Rows
  import opened Tables
  import opened QueryEngine
  import opened Migrations
  import opened MigrationSteps
  import opened Recovery
  import opened MigrationRuns
  import opened ProjectAccounts
  import opened Selects

  // ----- Rows

  /** All columns but those named are as before. */
  ghost predicate KeepsOthers(before: Row, after: Row, names: set<string>) {
    forall name {:trigger name in after} {:trigger name in before} :: name !in names ==>
      (name in after <==> name in before) && (name in after ==> after[name] == before[name])
  }

  /**
   * What a new column holds: the literal if one is given, else the column's default, else the generated id for a uuid
   * column `id`, else the clock for a timestamp, else null.
   */
  ghost predicate IsFill(column: Column, backfill: Option<Backfill>, uuid: Value, now: Value, v: Value) {
    if backfill.Some? && backfill.value.Literal? then v == backfill.value.value
    else if column.default != None then v == column.default.value
    else if column.name == "id" && column.kind == UuidType then v == uuid
    else if column.kind == TimestampType then v == now
    else v == Null
  }

  /** What an operation makes of a row of its table. */
  ghost predicate RowFollows(op: Operation, id: nat, before: Row, after: Row) {
    match op
    case AddColumn(_, column, backfill, uuid, now) =>
      if !column.required && backfill == None && column.default == None then after == before
      else
        column.name in after && IsFill(column, backfill, uuid(id), now, after[column.name])
        && KeepsOthers(before, after, {column.name})
    case RemoveColumn(_, column) => column !in after && KeepsOthers(before, after, {column})
    case RenameColumn(_, from, to, _) =>
      if from !in before then after == before
      else
        && from !in after && (to != from ==> to in after && after[to] == before[from])
        && KeepsOthers(before, after, {from, to})
    case ChangeType(_, column, _, coerce) =>
      if IsEmpty(before, column) then after == before
      else
        column in after && coerce(before[column]) == Some(after[column]) && KeepsOthers(before, after, {column})
    case _ => after == before
  }

  ghost predicate RowsFollow(op: Operation, before: map<nat, Row>, after: map<nat, Row>) {
    after.Keys == before.Keys && forall id :: id in before ==> RowFollows(op, id, before[id], after[id])
  }

  lemma MappedFollows(op: Operation, id: nat, row: Row)
    requires MappedRow(op, id, row).Some?
    ensures RowFollows(op, id, row, if RewritesRows(op) then MappedRow(op, id, row).value else row)
  {
  }

  lemma RewrittenFollow(op: Operation, rows: map<nat, Row>)
    requires RewrittenRows(op, rows).Some?
    ensures RowsFollow(op, rows, RewrittenRows(op, rows).value)
  {
    forall id | id in rows
      ensures RowFollows(op, id, rows[id], RewrittenRows(op, rows).value[id])
    {
      if RewritesRows(op) {
        MappedFollows(op, id, rows[id]);
      }
    }
  }

  // ----- Definitions

  /** `rest` has the elements of `s` at these places, in order, which are the places of those to keep. */
  ghost predicate Picks<T(!new)>(at: seq<nat>, s: seq<T>, rest: seq<T>, keep: T -> bool) {
    && |at| == |rest| && (forall i, j :: 0 <= i < j < |at| ==> at[i] < at[j])
    && (forall i :: 0 <= i < |at| ==> at[i] < |s| && s[at[i]] == rest[i])
    && (forall k :: 0 <= k < |s| ==> (k in at <==> keep(s[k])))
  }

  /** `rest` is what is left of `s` when only the elements to keep are kept. */
  ghost predicate IsSelection<T(!new)>(s: seq<T>, rest: seq<T>, keep: T -> bool) {
    exists at :: Picks(at, s, rest, keep)
  }

  ghost function Shifted(at: seq<nat>): seq<nat> {
    seq(|at|, i requires 0 <= i < |at| => at[i] + 1)
  }

  lemma ShiftedHas(at: seq<nat>, k: nat)
    ensures k in Shifted(at) <==> k > 0 && k - 1 in at
  {
    if k > 0 && k - 1 in at {
      var i :| 0 <= i < |at| && at[i] == k - 1;
      assert Shifted(at)[i] == k;
    }
  }

  lemma PicksDropped<T(!new)>(first: T, at: seq<nat>, s: seq<T>, rest: seq<T>, keep: T -> bool)
    requires Picks(at, s, rest, keep) && !keep(first)
    ensures Picks(Shifted(at), [first] + s, rest, keep)
  {
    forall k | 0 <= k < |[first] + s|
      ensures k in Shifted(at) <==> keep(([first] + s)[k])
    {
      ShiftedHas(at, k);
    }
  }

  lemma KeptHas(at: seq<nat>, k: nat)
    ensures k in [0] + Shifted(at) <==> k == 0 || k - 1 in at
  {
    ShiftedHas(at, k);
  }

  lemma KeptInOrder(at: seq<nat>)
    requires forall i, j :: 0 <= i < j < |at| ==> at[i] < at[j]
    ensures forall i, j :: 0 <= i < j < |[0] + Shifted(at)| ==> ([0] + Shifted(at))[i] < ([0] + Shifted(at))[j]
  {
    var more := [0] + Shifted(at);
    assert forall i :: 1 <= i < |more| ==> more[i] == at[i - 1] + 1;
  }

  lemma PicksKept<T(!new)>(first: T, at: seq<nat>, s: seq<T>, rest: seq<T>, keep: T -> bool)
    requires Picks(at, s, rest, keep) && keep(first)
    ensures Picks([0] + Shifted(at), [first] + s, [first] + rest, keep)
  {
    var more, all, kept := [0] + Shifted(at), [first] + s, [first] + rest;
    KeptInOrder(at);
    forall k | 0 <= k < |all|
      ensures k in more <==> keep(all[k])
    {
      KeptHas(at, k);
    }
    forall i | 0 <= i < |more|
      ensures more[i] < |all| && all[more[i]] == kept[i]
    {
      assert i > 0 ==> more[i] == at[i - 1] + 1 && kept[i] == rest[i - 1];
    }
  }

  lemma SelectionBefore<T(!new)>(first: T, s: seq<T>, rest: seq<T>, keep: T -> bool)
    requires IsSelection(s, rest, keep)
    ensures IsSelection([first] + s, if keep(first) then [first] + rest else rest, keep)
  {
    var at :| Picks(at, s, rest, keep);
    if keep(first) {
      PicksKept(first, at, s, rest, keep);
    } else {
      PicksDropped(first, at, s, rest, keep);
    }
  }

  ghost function OtherColumn(name: string): Column -> bool {
    (c: Column) => c.name != name
  }

  ghost function OtherName(name: string): string -> bool {
    (n: string) => n != name
  }

  lemma {:induction false} ColumnsSelected(columns: seq<Column>, name: string)
    ensures IsSelection(columns, WithoutColumn(columns, name), OtherColumn(name))
  {
    if columns == [] {
      assert Picks([], columns, WithoutColumn(columns, name), OtherColumn(name));
    } else {
      var first, rest, left := columns[0], columns[1..], WithoutColumn(columns[1..], name);
      ColumnsSelected(rest, name);
      SelectionBefore(first, rest, left, OtherColumn(name));
      assert columns == [first] + rest && [] + left == left;
      assert WithoutColumn(columns, name) == if OtherColumn(name)(first) then [first] + left else left;
    }
  }

  lemma {:induction false} NamesSelected(names: seq<string>, name: string)
    ensures IsSelection(names, Without(names, name), OtherName(name))
  {
    if names == [] {
      assert Picks([], names, Without(names, name), OtherName(name));
    } else {
      var first, rest, left := names[0], names[1..], Without(names[1..], name);
      NamesSelected(rest, name);
      SelectionBefore(first, rest, left, OtherName(name));
      assert names == [first] + rest && [] + left == left;
      assert Without(names, name) == if OtherName(name)(first) then [first] + left else left;
    }
  }

  ghost predicate AreRenamed(d: Definition, from: string, to: string, rewrite: string -> string, d': Definition) {
    var s, s' := d.schema, d'.schema;
    && |s'.columns| == |s.columns| && |s'.indexes| == |s.indexes|
    && (forall i :: 0 <= i < |s.columns| ==>
            s'.columns[i] == if s.columns[i].name == from then s.columns[i].(name := to) else s.columns[i])
    && (forall i :: 0 <= i < |s.indexes| ==> s'.indexes[i] == if s.indexes[i] == from then to else s.indexes[i])
    && (d.policies.Some? <==> d'.policies.Some?)
    && (d.policies.Some? ==>
            && |d'.policies.value| == |d.policies.value|
            && forall i :: 0 <= i < |d.policies.value| ==> d'.policies.value[i] == rewrite(d.policies.value[i]))
  }

  /** What an operation on a table that is there makes of its definition. */
  ghost predicate DefinitionFollows(op: Operation, d: Definition, d': Definition) {
    var s, s' := d.schema, d'.schema;
    match op
    case AddColumn(_, column, _, _, _) =>
      s'.columns == s.columns + [column] && s'.indexes == s.indexes && d'.policies == d.policies
    case RemoveColumn(_, column) =>
      && IsSelection(s.columns, s'.columns, OtherColumn(column))
      && IsSelection(s.indexes, s'.indexes, OtherName(column)) && d'.policies == d.policies
    case RenameColumn(_, from, to, rewrite) => AreRenamed(d, from, to, rewrite, d')
    case ChangeType(_, column, kind, _) =>
      && |s'.columns| == |s.columns| && s'.indexes == s.indexes && d'.policies == d.policies
      && forall i :: 0 <= i < |s.columns| ==>
           s'.columns[i] == if s.columns[i].name == column then s.columns[i].(kind := kind) else s.columns[i]
    case AddIndex(_, column) =>
      && s'.columns == s.columns && d'.policies == d.policies
      && s'.indexes == s.indexes + if column in s.indexes then [] else [column]
    case RemoveIndex(_, column) =>
      s'.columns == s.columns && IsSelection(s.indexes, s'.indexes, OtherName(column))
      && d'.policies == d.policies
    case ReplacePolicies(_, policies) => s' == s && d'.policies == policies
    case CreateTable(_, _) => true
    case DropTable(_) => true
  }

  lemma NextFollows(op: Operation, d: Definition)
    ensures DefinitionFollows(op, d, NextDefinition(op, d))
  {
    match op
    case RemoveColumn(_, column) =>
      ColumnsSelected(d.schema.columns, column);
      NamesSelected(d.schema.indexes, column);
    case RemoveIndex(_, column) => NamesSelected(d.schema.indexes, column);
    case _ =>
  }

  // ----- Refusals

  ghost predicate HasName(columns: seq<Column>, name: string) {
    exists c :: c in columns && c.name == name
  }

  ghost predicate IndexesSecret(schema: Schema) {
    exists c :: c in schema.columns && c.encrypted && c.name in schema.indexes
  }

  /** Why an operation is refused before it changes anything. */
  ghost predicate Refuses(op: Operation, schemas: map<string, Definition>, mentions: (string, string) -> bool,
                          e: MigrationError)
  {
    if op.CreateTable? then
      || (op.table in schemas && e == Conflict)
      || (op.table !in schemas && IndexesSecret(op.definition.schema) && e == Invalid)
    else if op.table !in schemas then e == Missing
    else
      var d := schemas[op.table];
      match op
      case AddColumn(_, column, _, _, _) =>
        || (HasName(d.schema.columns, column.name) && e == Conflict)
        || (!HasName(d.schema.columns, column.name) && e == Invalid
            && (IndexesSecret(d.schema) || (column.encrypted && column.name in d.schema.indexes)))
      case RemoveColumn(_, column) =>
        d.policies.Some? && (exists p :: p in d.policies.value && mentions(p, column)) && e == Invalid
      case RenameColumn(_, _, to, _) => HasName(d.schema.columns, to) && e == Conflict
      case AddIndex(_, column) =>
        || (!HasName(d.schema.columns, column) && e == Missing)
        || ((exists c :: c in d.schema.columns && c.name == column && c.encrypted) && e == Invalid)
      case _ => false
  }

  lemma SecretIndex(schema: Schema)
    ensures HasEncryptedIndex(schema) <==> IndexesSecret(schema)
  {
    if IndexesSecret(schema) {
      var c :| c in schema.columns && c.encrypted && c.name in schema.indexes;
      var i :| 0 <= i < |schema.indexes| && schema.indexes[i] == c.name;
      assert IsEncrypted(schema, schema.indexes[i]);
    }
  }

  lemma ObjectionMeans(op: Operation, schemas: map<string, Definition>, mentions: (string, string) -> bool)
    ensures match Objection(op, schemas, mentions)
      case Some(e) => Refuses(op, schemas, mentions, e)
      case None => forall e :: !Refuses(op, schemas, mentions, e)
  {
    if op.CreateTable? {
      SecretIndex(op.definition.schema);
    } else if op.table in schemas {
      var d := schemas[op.table];
      SecretIndex(NextDefinition(op, d).schema);
      match op
      case AddColumn(_, column, _, _, _) =>
        assert IndexesSecret(NextDefinition(op, d).schema) <==>
          IndexesSecret(d.schema) || (column.encrypted && column.name in d.schema.indexes);
      case _ =>
    }
  }

  // ----- Failures

  /** A required column is added with nothing to fill it in with. */
  ghost predicate LacksValue(op: Operation) {
    op.AddColumn? && op.added.required && op.backfill == None && op.added.default == None
  }

  ghost predicate CannotCoerce(op: Operation, rows: map<nat, Row>) {
    op.ChangeType? && exists id :: id in rows && !IsEmpty(rows[id], op.column) && op.coerce(rows[id][op.column]) == None
  }

  /** Why an operation fails that is not refused at once, other than that the query engine refuses a row. */
  ghost predicate FailsFor(op: Operation, s: Stored, e: MigrationError) {
    var t, live := op.table, s.project.live;
    match op
    case CreateTable(_, _) => t in live && t !in s.project.archived && e == Conflict
    case AddIndex(_, _) => false
    case RemoveIndex(_, _) => false
    case ReplacePolicies(_, _) => false
    case DropTable(_) => t !in live && e == Missing
    case _ =>
      if t !in live then e == Missing
      else e == Invalid && (LacksValue(op) || (live[t] in s.channels && CannotCoerce(op, s.channels[live[t]])))
  }

  lemma MappedWhen(op: Operation, rows: map<nat, Row>)
    ensures RewritesRows(op) ==> (MappedRows(op, rows) == None <==> CannotCoerce(op, rows))
  {
    forall id | id in rows
      ensures MappedRow(op, id, rows[id]) == None <==>
        op.ChangeType? && !IsEmpty(rows[id], op.column) && op.coerce(rows[id][op.column]) == None
    {
    }
  }

  lemma {:induction false} WrittenOrRefused(w: World, table: string, schema: Schema, channel: nat, edits: seq<Edit>)
    requires channel in w.stored.channels && w.fuse == None
    ensures var r := RowsWritten(w, table, schema, channel, edits); r.error.Some? ==> r.error.value.Refused?
    decreases |edits|
  {
    if edits != [] {
      var first := RowWritten(w, table, schema, channel, edits[0]);
      if first.error == None {
        WrittenOrRefused(first.world, table, schema, channel, edits[1..]);
      }
    }
  }

  lemma MappedOutcome(op: Operation, job: Job)
    requires IsStart(job.world) && job.world.fuse == None && RewritesRows(op)
    requires op.table in job.world.stored.schemas && op.table in job.world.stored.project.live
    ensures var rows := job.world.stored.channels[job.world.stored.project.live[op.table]];
      match RowsMapped(op, job).error
      case None => !CannotCoerce(op, rows)
      case Some(e) => if CannotCoerce(op, rows) then e == Invalid else e.Refused?
  {
    var s := job.world.stored;
    var channel := s.project.live[op.table];
    assert op.table in Homes(s.project) && Homes(s.project)[op.table] == channel;
    MappedWhen(op, s.channels[channel]);
    if !CannotCoerce(op, s.channels[channel]) {
      WrittenOrRefused(Called(job.world), op.table, NextDefinition(op, s.schemas[op.table]).schema, channel,
                       InOrder(MappedRows(op, s.channels[channel]).value));
    }
  }

  /** The answer is a reason there is; without one it is success, or that the query engine refuses a row. */
  ghost predicate IsReason(op: Operation, s: Stored, error: Option<MigrationError>) {
    if exists e :: FailsFor(op, s, e) then error.Some? && FailsFor(op, s, error.value)
    else error.Some? ==> error.value.Refused?
  }

  lemma OneReason(op: Operation, s: Stored)
    requires Looks(op) && !op.DropTable? && op.table in s.project.live && s.project.live[op.table] in s.channels
    ensures var fails := LacksValue(op) || CannotCoerce(op, s.channels[s.project.live[op.table]]);
      forall e :: FailsFor(op, s, e) <==> e == Invalid && fails
  {
  }

  lemma RewrittenOutcome(op: Operation, job: Job)
    requires IsStart(job.world) && job.world.fuse == None && Looks(op) && !op.DropTable?
    requires op.table in job.world.stored.schemas
    ensures IsReason(op, job.world.stored, Rewritten(op, job).error)
  {
    var looked, s := Looked(op.table, job), job.world.stored;
    LookedAnswered(op.table, job);
    if op.table !in s.project.live {
      assert FailsFor(op, s, Missing);
    } else {
      assert op.table in Homes(s.project) && looked.error == None;
      OneReason(op, s);
      assert LacksBackfill(op) <==> LacksValue(op);
      assert LacksValue(op) || CannotCoerce(op, s.channels[s.project.live[op.table]]) ==> FailsFor(op, s, Invalid);
      if !LacksBackfill(op) && RewritesRows(op) {
        MappedOutcome(op, looked.job);
        RowsMappedNear(op, looked.job);
        MappedAnswered(op, looked.job);
        RedefinedAnswered(op, RowsMapped(op, looked.job).job);
      }
    }
  }

  /** Why an operation fails on a storage that answers. */
  lemma OperatedOutcome(op: Operation, job: Job, mentions: (string, string) -> bool)
    requires IsStart(job.world) && job.world.fuse == None
    ensures var error, s := Operated(op, job, mentions).error, job.world.stored;
      if exists e ::
        Refuses(op, s.schemas, mentions, e) then error.Some? && Refuses(op, s.schemas, mentions, error.value)
      else IsReason(op, s, error)
  {
    ObjectionMeans(op, job.world.stored.schemas, mentions);
    if Objection(op, job.world.stored.schemas, mentions) == None {
      if op.CreateTable? {
        CreatedAnswered(op, job);
        assert op.table in job.world.stored.project.live && op.table !in job.world.stored.project.archived ==>
          FailsFor(op, job.world.stored, Conflict);
      } else if op.DropTable? {
        LookedAnswered(op.table, job);
        ArchivedAnswered(op, Looked(op.table, job).job);
        assert op.table !in job.world.stored.project.live ==> FailsFor(op, job.world.stored, Missing);
      } else if Looks(op) {
        RewrittenOutcome(op, job);
      } else {
        RedefinedAnswered(op, job);
      }
    }
  }

  // ----- Operations on the stored state

  ghost predicate SameKey<T>(a: map<string, T>, b: map<string, T>, t: string) {
    (t in a <==> t in b) && (t in a ==> a[t] == b[t])
  }

  ghost predicate IsChannelOf(p: Project, t: string, c: nat) {
    (t in p.live && p.live[t] == c) || (t in p.archived && p.archived[t] == c)
  }

  /** The channel of a table, live or dropped, holds these rows. */
  ghost predicate HoldsRows(s: Stored, t: string, rows: map<nat, Row>) {
    exists c :: IsChannelOf(s.project, t, c) && c in s.channels && s.channels[c] == rows
  }

  ghost predicate RowsStay(s: Stored, s': Stored, t: string) {
    forall rows :: HoldsRows(s, t, rows) ==> HoldsRows(s', t, rows)
  }

  ghost predicate ChannelStays(s: Stored, s': Stored, t: string) {
    SameKey(s.project.live, s'.project.live, t) && SameKey(s.project.archived, s'.project.archived, t)
  }

  /** A table that is not there is made with a new channel, or its old one; one that is there loses only its schema. */
  ghost predicate TableFollows(op: Operation, s: Stored, s': Stored)
    requires op.CreateTable? || op.DropTable?
  {
    var t, p, p' := op.table, s.project, s'.project;
    if op.CreateTable? then
      && t !in s.schemas && t in s'.schemas && s'.schemas[t] == op.definition && t in p'.live && t !in p'.archived
      && if t in p.archived then p'.live[t] == p.archived[t] && RowsStay(s, s', t)
         else t !in p.live && p'.live[t] !in s.channels && HoldsRows(s', t, map[])
    else
      && t in s.schemas && t in p.live && t !in s'.schemas && t !in p'.live
      && t in p'.archived && p'.archived[t] == p.live[t] && RowsStay(s, s', t)
  }

  /** The table stays where it is, with its new definition and its rows as the operation rewrites them. */
  ghost predicate ColumnsFollow(op: Operation, s: Stored, s': Stored) {
    var t := op.table;
    && t in s.schemas && t in s'.schemas && DefinitionFollows(op, s.schemas[t], s'.schemas[t])
    && ChannelStays(s, s', t)
    && (forall rows :: HoldsRows(s, t, rows) ==> exists rows' :: HoldsRows(s', t, rows') && RowsFollow(op, rows, rows'))
    && (op.AddColumn? ==> !op.added.required || op.backfill.Some? || op.added.default != None)
  }

  /** What an operation that is carried out does; every other table has what it had. */
  ghost predicate StoredFollows(op: Operation, mentions: (string, string) -> bool, s: Stored, s': Stored) {
    && (forall e :: !Refuses(op, s.schemas, mentions, e))
    && (forall t :: t != op.table ==> SameKey(s.schemas, s'.schemas, t) && ChannelStays(s, s', t) && RowsStay(s, s', t))
    && if op.CreateTable? || op.DropTable? then TableFollows(op, s, s') else ColumnsFollow(op, s, s')
  }

  lemma SameAt<T>(a: map<string, T>, b: map<string, T>, t: string)
    ensures SameKey(a, b, t) <==> At(a, t) == At(b, t)
  {
  }

  lemma RowsAtHome(w: World, t: string, rows: map<nat, Row>)
    requires IsHoused(w.stored.project, w.stored.channels)
    ensures HoldsRows(w.stored, t, rows) <==> ViewOf(w, t).rows == Some(rows)
  {
    var s := w.stored;
    if t in Homes(s.project) {
      assert IsChannelOf(s.project, t, Homes(s.project)[t]);
    }
  }

  lemma SameView(w: World, w': World, t: string)
    requires IsHoused(w.stored.project, w.stored.channels) && IsHoused(w'.stored.project, w'.stored.channels)
    requires ViewOf(w', t) == ViewOf(w, t)
    ensures SameKey(w.stored.schemas, w'.stored.schemas, t) && ChannelStays(w.stored, w'.stored, t)
    ensures RowsStay(w.stored, w'.stored, t)
  {
    SameAt(w.stored.schemas, w'.stored.schemas, t);
    SameAt(w.stored.project.live, w'.stored.project.live, t);
    SameAt(w.stored.project.archived, w'.stored.project.archived, t);
    forall rows
      ensures HoldsRows(w.stored, t, rows) ==> HoldsRows(w'.stored, t, rows)
    {
      RowsAtHome(w, t, rows);
      RowsAtHome(w', t, rows);
    }
  }

  /** The rows of the operation's own table. */
  lemma OwnRowsFollow(op: Operation, job: Job, mentions: (string, string) -> bool, rows: map<nat, Row>)
    requires IsStart(job.world) && IsStart(Operated(op, job, mentions).job.world)
    requires Operated(op, job, mentions).error == None && HoldsRows(job.world.stored, op.table, rows)
    ensures exists rows' ::
      HoldsRows(Operated(op, job, mentions).job.world.stored, op.table, rows') && RowsFollow(op, rows, rows')
  {
    var w, w', t := job.world, Operated(op, job, mentions).job.world, op.table;
    RowsAtHome(w, t, rows);
    HomeOfView(w, t);
    OwnRows(op, job, mentions);
    var rows' := ViewOf(w', t).rows.value;
    RowsAtHome(w', t, rows');
    RewrittenFollow(op, rows);
  }

  lemma SameRows(op: Operation, rows: map<nat, Row>, rows': map<nat, Row>)
    requires RowsFollow(op, rows, rows') && (op.CreateTable? || op.DropTable?)
    ensures rows' == rows
  {
    assert forall id :: id in rows ==> RowFollows(op, id, rows[id], rows'[id]);
  }

  lemma OwnRowsStay(op: Operation, job: Job, mentions: (string, string) -> bool)
    requires IsStart(job.world) && IsStart(Operated(op, job, mentions).job.world)
    requires Operated(op, job, mentions).error == None && (op.CreateTable? || op.DropTable?)
    ensures RowsStay(job.world.stored, Operated(op, job, mentions).job.world.stored, op.table)
  {
    forall rows | HoldsRows(job.world.stored, op.table, rows)
      ensures HoldsRows(Operated(op, job, mentions).job.world.stored, op.table, rows)
    {
      OwnRowsFollow(op, job, mentions, rows);
      var rows' :| HoldsRows(Operated(op, job, mentions).job.world.stored, op.table, rows')
                   && RowsFollow(op, rows, rows');
      SameRows(op, rows, rows');
    }
  }

  lemma CreatedFollows(op: Operation, job: Job, mentions: (string, string) -> bool)
    requires IsStart(job.world) && IsStart(Operated(op, job, mentions).job.world)
    requires Operated(op, job, mentions).error == None && op.CreateTable?
    ensures TableFollows(op, job.world.stored, Operated(op, job, mentions).job.world.stored)
  {
    var w, w', t := job.world, Operated(op, job, mentions).job.world, op.table;
    OwnRowsStay(op, job, mentions);
    if t !in w.stored.project.archived {
      assert w'.stored.project.live[t] == w.nextChannel && w'.stored.channels[w.nextChannel] == map[];
      assert IsChannelOf(w'.stored.project, t, w.nextChannel);
    }
  }

  lemma DroppedFollows(op: Operation, job: Job, mentions: (string, string) -> bool)
    requires IsStart(job.world) && IsStart(Operated(op, job, mentions).job.world)
    requires Operated(op, job, mentions).error == None && op.DropTable?
    ensures TableFollows(op, job.world.stored, Operated(op, job, mentions).job.world.stored)
  {
    OwnRowsStay(op, job, mentions);
  }

  lemma ColumnsChangedFollow(start: Stored, op: Operation, job: Job, mentions: (string, string) -> bool)
    requires Tracks(start, job) && IsStart(job.world) && IsStart(Operated(op, job, mentions).job.world)
    requires Operated(op, job, mentions).error == None && !op.CreateTable? && !op.DropTable?
    ensures ColumnsFollow(op, job.world.stored, Operated(op, job, mentions).job.world.stored)
  {
    var s, s' := job.world.stored, Operated(op, job, mentions).job.world.stored;
    OperatedSchemas(start, op, job, mentions);
    NextFollows(op, s.schemas[op.table]);
    RewrittenKnown(op, job);
    RedefinedKeeps(op, job);
    assert s'.project == s.project;
    forall rows | HoldsRows(s, op.table, rows)
      ensures exists rows' :: HoldsRows(s', op.table, rows') && RowsFollow(op, rows, rows')
    {
      OwnRowsFollow(op, job, mentions, rows);
    }
  }

  lemma OperatedFollows(start: Stored, op: Operation, job: Job, mentions: (string, string) -> bool)
    requires Tracks(start, job) && Operated(op, job, mentions).error == None
    ensures Tracks(start, Operated(op, job, mentions).job)
    ensures StoredFollows(op, mentions, job.world.stored, Operated(op, job, mentions).job.world.stored)
  {
    var next := Operated(op, job, mentions).job;
    OperatedTracks(start, job, op, mentions);
    TracksMeans(start, job);
    TracksMeans(start, next);
    ObjectionMeans(op, job.world.stored.schemas, mentions);
    forall t | t != op.table
      ensures SameKey(job.world.stored.schemas, next.world.stored.schemas, t)
      ensures ChannelStays(job.world.stored, next.world.stored, t) && RowsStay(job.world.stored, next.world.stored, t)
    {
      OperatedView(op, job, mentions, t);
      SameView(job.world, next.world, t);
    }
    if op.CreateTable? {
      CreatedFollows(op, job, mentions);
    } else if op.DropTable? {
      DroppedFollows(op, job, mentions);
    } else {
      ColumnsChangedFollow(start, op, job, mentions);
    }
  }

  /** The stored state goes from operation to operation. */
  ghost predicate AreStages(ops: seq<Operation>, mentions: (string, string) -> bool, stages: seq<Stored>) {
    |stages| == |ops| + 1 && forall i :: 0 <= i < |ops| ==> StoredFollows(ops[i], mentions, stages[i], stages[i + 1])
  }

  lemma {:induction false} RanInStages(start: Stored, ops: seq<Operation>, job: Job, mentions: (string, string) -> bool)
    returns (stages: seq<Stored>)
    requires Tracks(start, job) && Ran(ops, job, mentions).error == None
    ensures AreStages(ops, mentions, stages) && stages[0] == job.world.stored
    ensures stages[|ops|] == Ran(ops, job, mentions).job.world.stored
    decreases |ops|
  {
    stages := [job.world.stored];
    if ops != [] {
      OperatedFollows(start, ops[0], job, mentions);
      var rest := RanInStages(start, ops[1..], Operated(ops[0], job, mentions).job, mentions);
      stages := stages + rest;
      assert forall i :: 1 <= i < |ops| ==> ops[i] == ops[1..][i - 1];
    }
  }

  /** A migration that succeeds has carried out its operations one after the other, each in full. */
  lemma SuccessInStages(before: World, migration: string, ops: seq<Operation>, up: bool,
                        mentions: (string, string) -> bool, after: World)
    returns (stages: seq<Stored>)
    requires IsStart(before) && IsFinished(before, migration, ops, up, mentions, after)
    ensures AreStages(ops, mentions, stages) && stages[0] == before.stored && stages[|ops|] == after.stored
  {
    FreshTracks(before);
    stages := RanInStages(before.stored, ops, Fresh(before), mentions);
  }

  /** The rows of a table after a migration that is one operation on it. */
  lemma OneOperation(before: World, migration: string, op: Operation, up: bool, mentions: (string, string) -> bool,
                     after: World, rows: map<nat, Row>)
    returns (rows': map<nat, Row>)
    requires IsStart(before) && IsFinished(before, migration, [op], up, mentions, after)
    requires HoldsRows(before.stored, op.table, rows)
    ensures HoldsRows(after.stored, op.table, rows') && RowsFollow(op, rows, rows')
  {
    FreshTracks(before);
    TracksMeans(before.stored, Fresh(before));
    var first := Operated(op, Fresh(before), mentions);
    assert [op][1..] == [] && Ran([], first.job, mentions) == Outcome(first.job, None);
    OperatedTracks(before.stored, Fresh(before), op, mentions);
    TracksMeans(before.stored, first.job);
    OwnRowsFollow(op, Fresh(before), mentions, rows);
    rows' :| HoldsRows(first.job.world.stored, op.table, rows') && RowsFollow(op, rows, rows');
  }

  // ----- Record and index

  lemma RedefinedHistory(op: Operation, job: Job)
    ensures Redefined(op, job).job.world.history == job.world.history
  {
  }

  lemma RewrittenHistory(op: Operation, job: Job)
    ensures Rewritten(op, job).job.world.history == job.world.history
  {
    var looked := Looked(op.table, job);
    if looked.error == None && !LacksBackfill(op) {
      RowsMappedNear(op, looked.job);
      RedefinedHistory(op, looked.job);
      RedefinedHistory(op, RowsMapped(op, looked.job).job);
    }
  }

  lemma OperatedHistory(op: Operation, job: Job, mentions: (string, string) -> bool)
    ensures Operated(op, job, mentions).job.world.history == job.world.history
  {
    if Objection(op, job.world.stored.schemas, mentions) == None {
      if !op.CreateTable? && !op.DropTable? && !op.AddIndex? && !op.RemoveIndex? && !op.ReplacePolicies? {
        RewrittenHistory(op, job);
      }
    }
  }

  lemma {:induction false} RanHistory(ops: seq<Operation>, job: Job, mentions: (string, string) -> bool)
    ensures Ran(ops, job, mentions).job.world.history == job.world.history
    decreases |ops|
  {
    if ops != [] {
      OperatedHistory(ops[0], job, mentions);
      RanHistory(ops[1..], Operated(ops[0], job, mentions).job, mentions);
    }
  }

  /** A migration that succeeds is on record as applied after going up, and as not applied after going down. */
  lemma SuccessIsRecorded(before: World, migration: string, ops: seq<Operation>, up: bool,
                          mentions: (string, string) -> bool, after: World)
    requires IsFinished(before, migration, ops, up, mentions, after)
    ensures migration in after.history <==> up
    ensures forall other :: other != migration ==> (other in after.history <==> other in before.history)
  {
    RanHistory(ops, Fresh(before), mentions);
  }

  /** A column of the schema that is not encrypted, and has an index. */
  ghost predicate IsIndexedColumn(schema: Schema, column: string) {
    && column in schema.indexes && HasName(schema.columns, column)
    && forall c :: c in schema.columns && c.name == column ==> !c.encrypted
  }

  /** The index should have an entry for the value a live row of the table holds, printed. */
  ghost predicate IsOwnEntry(w: World, t: string, column: string, text: string, id: nat) {
    && t in w.stored.schemas && t in w.stored.project.live
    && w.stored.project.live[t] in w.stored.channels && id in w.stored.channels[w.stored.project.live[t]]
    && IsIndexedColumn(w.stored.schemas[t].schema, column)
    && var row := w.stored.channels[w.stored.project.live[t]][id];
       !IsEmpty(row, column) && PrintsAs(row[column], text)
  }

  lemma OwnKeys(w: World, t: string, column: string, text: string, id: nat)
    requires IsStart(w)
    ensures IndexKey(column, text, id) in ExpectedOf(ViewOf(w, t)) <==> IsOwnEntry(w, t, column, text, id)
  {
    LiveView(w, t);
  }

  lemma SameShare(entries: set<Entry>, t: string, keys: set<IndexKey>)
    ensures Share(entries, t) == keys <==>
      forall column, text, id {:trigger IndexKey(column, text, id)} ::
        Entry(t, IndexKey(column, text, id)) in entries <==> IndexKey(column, text, id) in keys
  {
    if forall column, text, id {:trigger IndexKey(column, text, id)} ::
        Entry(t, IndexKey(column, text, id)) in entries <==> IndexKey(column, text, id) in keys
    {
      forall key: IndexKey
        ensures key in Share(entries, t) <==> key in keys
      {
        assert key == IndexKey(key.column, key.value, key.id);
      }
    }
  }

  /** The index of a table is as it should be when it holds the table's own entries, and no others. */
  lemma CurrentMeans(w: World, t: string)
    requires IsStart(w)
    ensures IsCurrent(w, t) <==>
      forall column, text, id {:trigger IndexKey(column, text, id)} ::
        Entry(t, IndexKey(column, text, id)) in w.entries <==> IsOwnEntry(w, t, column, text, id)
  {
    SameShare(w.entries, t, ExpectedOf(ViewOf(w, t)));
    forall column, text, id {:trigger IndexKey(column, text, id)}
      ensures IndexKey(column, text, id) in ExpectedOf(ViewOf(w, t)) <==> IsOwnEntry(w, t, column, text, id)
    {
      OwnKeys(w, t, column, text, id);
    }
  }

  // ----- The schema channel

  ghost predicate IsSilent(events: seq<SchemaEvent>, t: string) {
    forall e :: e in events && !e.History? ==> e.table != t
  }

  lemma {:induction false} NothingSaid(events: seq<SchemaEvent>, t: string)
    requires IsSilent(events, t)
    ensures t !in Replay(events)
    decreases |events|
  {
    if events != [] {
      assert events[|events| - 1] in events;
      NothingSaid(events[..|events| - 1], t);
    }
  }

  /** The last event about a table decides its schema. */
  lemma {:induction false} LastWordOnTable(before: seq<SchemaEvent>, e: SchemaEvent, after: seq<SchemaEvent>, t: string)
    requires IsSilent(after, t) && !e.History? && e.table == t
    ensures At(Replay(before + [e] + after), t) == match e case Saved(_, definition) => Some(definition) case _ => None
    decreases |after|
  {
    var told := before + [e];
    if after == [] {
      assert told + after == told;
      ReplaySnoc(before, e);
    } else {
      var less, last := after[..|after| - 1], after[|after| - 1];
      assert last in after && told + after == (told + less) + [last];
      LastWordOnTable(before, e, less, t);
      ReplaySnoc(told + less, last);
    }
  }

  ghost predicate IsUnmentioned(events: seq<SchemaEvent>, migration: string) {
    forall e :: e in events && e.History? ==> e.migration != migration
  }

  lemma {:induction false} NothingRecorded(events: seq<SchemaEvent>, migration: string)
    requires IsUnmentioned(events, migration)
    ensures migration !in Applied(events)
    decreases |events|
  {
    if events != [] {
      assert events[|events| - 1] in events;
      NothingRecorded(events[..|events| - 1], migration);
    }
  }

  /** The last entry about a migration decides whether it is applied. */
  lemma {:induction false} LastWordOnMigration(before: seq<SchemaEvent>, e: SchemaEvent, after: seq<SchemaEvent>)
    requires e.History? && IsUnmentioned(after, e.migration)
    ensures e.migration in Applied(before + [e] + after) <==> e.up
    decreases |after|
  {
    var told := before + [e];
    if after == [] {
      assert told + after == told;
      ReplaySnoc(before, e);
    } else {
      var less, last := after[..|after| - 1], after[|after| - 1];
      assert last in after && told + after == (told + less) + [last];
      LastWordOnMigration(before, e, less);
      ReplaySnoc(told + less, last);
    }
  }
}
