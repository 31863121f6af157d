/** Over any series of migrations, which schemas, live names and channels go together, and which do not. */
module ProjectAccounts {
  import opened Wrappers
  import opened Rows
  import opened Tables
  import opened QueryEngine
  import opened Migrations
  import opened MigrationSteps
  import opened Recovery
  import opened MigrationRuns
  import opened SchemaRecovery

  // ----- One operation

  /** A channel that is made for a new table, while a call that has to follow throws. */
  ghost predicate Forsakes(op: Operation, job: Job, mentions: (string, string) -> bool) {
    var p := job.world.stored.project;
    && op.CreateTable? && Objection(op, job.world.stored.schemas, mentions) == None
    && op.table !in p.live && op.table !in p.archived && job.world.fuse in {Some(1), Some(2)}
  }

  /** The channels are those of the start and those the ledger knows, and each is the channel of its table. */
  ghost predicate IsAccounted(start: Stored, job: Job) {
    && Homes(job.world.stored.project) == Homes(start.project) + job.ledger.created
    && job.world.stored.channels.Keys == start.channels.Keys + job.ledger.created.Values
  }

  lemma MoreValues<T>(m: map<string, T>, t: string, value: T)
    requires t !in m
    ensures m[t := value].Values == m.Values + {value}
  {
    forall v | v in m.Values
      ensures v in m[t := value].Values
    {
      var u :| u in m && m[u] == v;
      assert m[t := value][u] == v;
    }
    assert m[t := value][t] == value;
  }

  lemma FoundedWhole(op: Operation, job: Job)
    requires op.CreateTable? && Founded(op, job).error == None
    ensures var o, p, c := Founded(op, job).job, job.world.stored.project, job.world.nextChannel;
      && op.table !in p.live && o.ledger.created == job.ledger.created[op.table := c]
      && o.world.stored.project == Project(p.live[op.table := c], p.archived)
      && o.world.stored.channels == job.world.stored.channels[c := map[]]
  {
  }

  lemma FoundedInPart(op: Operation, job: Job)
    requires op.CreateTable? && Founded(op, job).error.Some?
    ensures var o, before := Founded(op, job).job, job.world.stored;
      && o.ledger == job.ledger
      && o.world.stored.channels == if op.table !in before.project.live && job.world.fuse in {Some(1), Some(2)}
                                    then before.channels[job.world.nextChannel := map[]] else before.channels
  {
  }

  lemma FoundedAccounts(start: Stored, op: Operation, job: Job)
    requires IsAccounted(start, job) && op.CreateTable? && op.table !in job.world.stored.project.archived
    requires job.ledger.created.Keys <= Homes(job.world.stored.project).Keys && Founded(op, job).error == None
    ensures IsAccounted(start, Founded(op, job).job)
  {
    var t, c, p, created := op.table, job.world.nextChannel, job.world.stored.project, job.ledger.created;
    FoundedWhole(op, job);
    MoreHomes(p, Homes(start.project), created, t, c);
    MoreValues(created, t, c);
  }

  lemma MoreHomes(p: Project, homes: map<string, nat>, created: map<string, nat>, t: string, c: nat)
    requires Homes(p) == homes + created && t !in p.live && t !in p.archived
    ensures t !in created && Homes(Project(p.live[t := c], p.archived)) == homes + created[t := c]
  {
    assert t !in Homes(p);
    assert Homes(Project(p.live[t := c], p.archived)) == Homes(p)[t := c];
    assert homes + created[t := c] == (homes + created)[t := c];
  }

  /** The other operations neither make nor delete a channel, and no table changes its channel. */
  ghost predicate KeepsAccounts(job: Job, o: Outcome) {
    && o.job.ledger.created == job.ledger.created
    && o.job.world.stored.channels.Keys == job.world.stored.channels.Keys
    && (o.error == None ==> Homes(o.job.world.stored.project) == Homes(job.world.stored.project))
  }

  lemma MovedAccounts(op: Operation, job: Job)
    requires job.world.stored.project.live.Keys !! job.world.stored.project.archived.Keys
    ensures op.DropTable? ==> KeepsAccounts(job, Dropped(op, job))
    ensures op.CreateTable? && op.table in job.world.stored.project.archived ==> KeepsAccounts(job, Revived(op, job))
  {
    var p := job.world.stored.project;
    if (op.DropTable? && op.table in p.live) || (op.CreateTable? && op.table in p.archived) {
      MovedHomes(p, op);
    }
  }

  lemma MappedAccounts(op: Operation, job: Job)
    ensures RowsMapped(op, job).job.world.stored.channels.Keys == job.world.stored.channels.Keys
  {
  }

  lemma RewrittenAccounts(op: Operation, job: Job)
    ensures KeepsAccounts(job, Rewritten(op, job)) && KeepsAccounts(job, Redefined(op, job))
  {
    var looked := Looked(op.table, job);
    RewrittenKnown(op, job);
    RedefinedKeeps(op, job);
    RedefinedChannels(op, job);
    if looked.error == None && !LacksBackfill(op) {
      MappedAccounts(op, looked.job);
      RedefinedChannels(op, looked.job);
      RedefinedChannels(op, RowsMapped(op, looked.job).job);
    }
  }

  /** An operation that is carried out leaves all accounted for; one that fails may forsake the channel it made. */
  ghost predicate AccountsFor(start: Stored, op: Operation, job: Job, mentions: (string, string) -> bool, o: Outcome) {
    if o.error == None then IsAccounted(start, o.job)
    else
      && o.job.ledger.created == job.ledger.created
      && o.job.world.stored.channels.Keys == job.world.stored.channels.Keys
           + if Forsakes(op, job, mentions) then {job.world.nextChannel} else {}
  }

  lemma KeptAccounts(start: Stored, op: Operation, job: Job, mentions: (string, string) -> bool, o: Outcome)
    requires IsAccounted(start, job) && KeepsAccounts(job, o) && !Forsakes(op, job, mentions)
    ensures AccountsFor(start, op, job, mentions, o)
  {
  }

  lemma NewAccounts(start: Stored, op: Operation, job: Job, mentions: (string, string) -> bool)
    requires Tracks(start, job) && IsAccounted(start, job) && op.CreateTable?
    requires op.table !in job.world.stored.project.archived && Objection(op, job.world.stored.schemas, mentions) == None
    ensures AccountsFor(start, op, job, mentions, Founded(op, job))
  {
    TracksMeans(start, job);
    if Founded(op, job).error == None {
      FoundedAccounts(start, op, job);
    } else {
      FoundedInPart(op, job);
    }
  }

  lemma OperatedAccounts(start: Stored, op: Operation, job: Job, mentions: (string, string) -> bool)
    requires Tracks(start, job) && IsAccounted(start, job)
    ensures AccountsFor(start, op, job, mentions, Operated(op, job, mentions))
  {
    if Objection(op, job.world.stored.schemas, mentions) == None {
      if op.CreateTable? && op.table !in job.world.stored.project.archived {
        NewAccounts(start, op, job, mentions);
      } else {
        TracksMeans(start, job);
        MovedAccounts(op, job);
        RewrittenAccounts(op, job);
        KeptAccounts(start, op, job, mentions, Operated(op, job, mentions));
      }
    }
  }

  lemma FoundedWasNew(op: Operation, job: Job)
    requires op.CreateTable? && op.table !in job.world.stored.project.archived && Founded(op, job).error == None
    ensures var p := job.world.stored.project;
      op.table !in p.live && Founded(op, job).job.world.stored.project.live.Keys == p.live.Keys + {op.table}
  {
    FoundedWhole(op, job);
  }

  lemma DroppedWasLive(op: Operation, job: Job)
    requires op.DropTable? && Dropped(op, job).error == None
    ensures var p := job.world.stored.project;
      op.table in p.live && Dropped(op, job).job.world.stored.project.live.Keys == p.live.Keys - {op.table}
  {
  }

  /** The live names after an operation. */
  lemma OperatedLive(op: Operation, job: Job, mentions: (string, string) -> bool)
    requires IsHoused(job.world.stored.project, job.world.stored.channels) && Operated(op, job, mentions).error == None
    ensures
      var live, after := job.world.stored.project.live.Keys, Operated(op, job,
                                                                      mentions).job.world.stored.project.live.Keys;
      && after == (if op.CreateTable? then live + {op.table} else if op.DropTable? then live - {op.table} else live)
      && (op.CreateTable? ==> op.table !in live) && (op.DropTable? ==> op.table in live)
  {
    if op.DropTable? {
      DroppedWasLive(op, job);
    } else if op.CreateTable? {
      if op.table !in job.world.stored.project.archived {
        FoundedWasNew(op, job);
      }
    } else {
      RewrittenKnown(op, job);
      RedefinedKeeps(op, job);
    }
  }

  /** The same tables have a schema and no live channel, and the same ones a live channel and no schema. */
  predicate IsSettledAlike(before: Stored, after: Stored) {
    Strays(after) == Strays(before)
    && after.project.live.Keys - after.schemas.Keys == before.project.live.Keys - before.schemas.Keys
  }

  lemma OperatedStrays(start: Stored, op: Operation, job: Job, mentions: (string, string) -> bool)
    requires Tracks(start, job) && Operated(op, job, mentions).error == None
    ensures IsSettledAlike(job.world.stored, Operated(op, job, mentions).job.world.stored)
  {
    TracksMeans(start, job);
    OperatedSchemas(start, op, job, mentions);
    OperatedLive(op, job, mentions);
    var s, s' := job.world.stored, Operated(op, job, mentions).job.world.stored;
    assert op.CreateTable? <==> op.table !in s.schemas;
    forall t
      ensures t in s'.schemas && t !in s'.project.live <==> t in s.schemas && t !in s.project.live
      ensures t in s'.project.live && t !in s'.schemas <==> t in s.project.live && t !in s.schemas
    {
      assert t != op.table ==> (t in s'.schemas <==> t in s.schemas) && (t in s'.project.live <==> t in s.project.live);
    }
  }

  // ----- One migration

  /** A run stops at the first operation that fails, in the state the ones before it have led to. */
  lemma {:induction false} RanStops(ops: seq<Operation>, job: Job, mentions: (string, string) -> bool)
    ensures var n := Completed(ops, job, mentions);
      && Ran(ops[..n], job, mentions).error == None
      && (n < |ops| ==> Ran(ops, job, mentions).error.Some?)
      && Ran(ops, job, mentions) ==
           if n == |ops| then Ran(ops[..n], job, mentions)
           else Operated(ops[n], Ran(ops[..n], job, mentions).job, mentions)
    decreases |ops|
  {
    if ops != [] {
      var first := Operated(ops[0], job, mentions);
      if first.error == None {
        RanStops(ops[1..], first.job, mentions);
        var n := Completed(ops[1..], first.job, mentions);
        assert ops[..n + 1][1..] == ops[1..][..n];
      }
    }
  }

  lemma {:induction false} RanAccounts(start: Stored, ops: seq<Operation>, job: Job, mentions: (string, string) -> bool)
    requires Tracks(start, job) && IsAccounted(start, job) && Ran(ops, job, mentions).error == None
    ensures var last := Ran(ops, job, mentions).job;
      Tracks(start, last) && IsAccounted(start, last) && IsSettledAlike(job.world.stored, last.world.stored)
    decreases |ops|
  {
    if ops != [] {
      OperatedTracks(start, job, ops[0], mentions);
      OperatedAccounts(start, ops[0], job, mentions);
      OperatedStrays(start, ops[0], job, mentions);
      RanAccounts(start, ops[1..], Operated(ops[0], job, mentions).job, mentions);
    }
  }

  lemma FreshAccounts(w: World)
    ensures IsAccounted(w.stored, Fresh(w))
  {
    assert Homes(w.stored.project) + BLANK.created == Homes(w.stored.project);
  }

  /** The channels that no table has. */
  function Orphans(s: Stored): set<nat> {
    s.channels.Keys - Homes(s.project).Values
  }

  /**
   * A migration that succeeds leaves a project as it found it: the schemas are those of the live tables, and every
   * channel is that of exactly one table, live or dropped, with no other exceptions than there were before.
   */
  lemma SuccessKeepsAccounts(before: World, migration: string, ops: seq<Operation>, up: bool,
                             mentions: (string, string) -> bool, after: World)
    requires IsStart(before) && IsFinished(before, migration, ops, up, mentions, after)
    ensures IsStart(after) && IsSettledAlike(before.stored, after.stored)
    ensures Orphans(after.stored) == Orphans(before.stored)
    ensures IsSettled(after.stored) <==> IsSettled(before.stored)
    ensures IsAnchored(before.stored) ==> IsAnchored(after.stored)
    ensures before.stored.channels.Keys == Homes(before.stored.project).Values ==>
      after.stored.channels.Keys == Homes(after.stored.project).Values
  {
    FreshTracks(before);
    FreshAccounts(before);
    RanAccounts(before.stored, ops, Fresh(before), mentions);
    var last := Ran(ops, Fresh(before), mentions).job;
    TracksMeans(before.stored, last);
    SettledMeans(before.stored);
    SettledMeans(after.stored);
    SameOrphans(before.stored, last);
    if IsAnchored(before.stored) {
      StaysAnchored(before.stored, after.stored);
    }
  }

  lemma StaysAnchored(before: Stored, after: Stored)
    requires IsAnchored(before) && IsSettledAlike(before, after)
    requires Homes(before.project).Keys <= Homes(after.project).Keys
    ensures IsAnchored(after)
  {
    forall t
      ensures t in after.project.live ==> t in after.schemas
      ensures t in after.schemas ==> t in Homes(after.project)
    {
      assert t !in before.project.live.Keys - before.schemas.Keys;
      assert t in Strays(after) ==> t in Strays(before);
    }
  }

  lemma SameOrphans(start: Stored, last: Job)
    requires IsAccounted(start, last) && IsOwn(start, last.world.stored.channels, last.ledger.created)
    requires forall t :: t in Homes(start.project) ==> Homes(start.project)[t] in start.channels
    ensures Orphans(last.world.stored) == Orphans(start)
  {
    var homes, created := Homes(start.project), last.ledger.created;
    forall c
      ensures c in (homes + created).Values <==> c in homes.Values || c in created.Values
    {
      if c in homes.Values {
        var t :| t in homes && homes[t] == c;
        assert (homes + created)[t] == c;
      }
      if c in created.Values {
        var t :| t in created && created[t] == c;
        assert (homes + created)[t] == c;
      }
    }
    assert created.Values !! start.channels.Keys;
  }

  /**
   * The channel that a failing migration leaves behind without a table: at most one, made by the operation that failed.
   */
  ghost function Forsaken(before: World, ops: seq<Operation>, mentions: (string, string) -> bool): set<nat> {
    var done := Done(before, ops, mentions);
    var job := Ran(done, Fresh(before), mentions).job;
    if |done| < |ops| && Forsakes(ops[|done|], job, mentions) then {job.world.nextChannel} else {}
  }

  /**
   * The channels in the state in which a migration stops, after the operations that were carried out have led to `mid`.
   */
  ghost predicate IsStoppedAt(start: Stored, mid: Job, last: Job, forsaken: set<nat>) {
    && last.ledger.created == mid.ledger.created
    && last.world.stored.channels.Keys == mid.world.stored.channels.Keys + forsaken
    && forall c :: c in forsaken ==> c == mid.world.nextChannel
  }

  lemma StoppedAt(before: World, ops: seq<Operation>, mentions: (string, string) -> bool, error: MigrationError,
                  last: Job)
    returns (mid: Job)
    requires IsStart(before) && IsStopped(before, ops, mentions, error, last)
    ensures Tracks(before.stored, mid) && IsAccounted(before.stored, mid)
    ensures IsStoppedAt(before.stored, mid, last, Forsaken(before, ops, mentions))
  {
    var job, done := Fresh(before), Done(before, ops, mentions);
    mid := Ran(done, job, mentions).job;
    FreshTracks(before);
    FreshAccounts(before);
    RanStops(ops, job, mentions);
    RanAccounts(before.stored, done, job, mentions);
    if |done| < |ops| {
      OperatedAccounts(before.stored, ops[|done|], mid, mentions);
    }
  }

  lemma StoppedAccounts(before: World, ops: seq<Operation>, mentions: (string, string) -> bool, error: MigrationError,
                        last: Job)
    requires IsStart(before) && IsStopped(before, ops, mentions, error, last)
    ensures last.world.stored.channels.Keys ==
      before.stored.channels.Keys + last.ledger.created.Values + Forsaken(before, ops, mentions)
    ensures forall c :: c in Forsaken(before, ops, mentions) ==>
      c !in before.stored.channels && c !in last.ledger.created.Values
  {
    var mid := StoppedAt(before, ops, mentions, error, last);
    TracksMeans(before.stored, mid);
    assert mid.world.nextChannel !in mid.world.stored.channels;
    assert before.stored.channels.Keys <= mid.world.stored.channels.Keys;
    assert forall c :: c in mid.ledger.created.Values ==> c in mid.world.stored.channels;
  }

  /**
   * A migration that fails leaves the channels it found, and one more exactly when it has made the channel of a new
   * table and then saving the channel map or announcing the schema throws.
   */
  lemma FailureKeepsChannels(before: World, migration: string, ops: seq<Operation>, up: bool,
                             mentions: (string, string) -> bool, error: MigrationError, last: Job, after: World)
    requires IsStart(before) && IsExecuted(before, migration, ops, up, mentions, Some(error), last, after)
    ensures IsStart(after)
    ensures after.stored.channels.Keys == before.stored.channels.Keys + Forsaken(before, ops, mentions)
    ensures Orphans(after.stored) == Orphans(before.stored) + Forsaken(before, ops, mentions)
    ensures Forsaken(before, ops, mentions) !! before.stored.channels.Keys
  {
    StoppedAccounts(before, ops, mentions, error, last);
    StoppedTracks(before, ops, mentions, error, last);
    TracksMeans(before.stored, last);
    NothingLapsed(before.stored.project, last, after);
    GivenUpHoused(before.stored, last, NoLapse, after);
    UndoneAreCreated(before.stored, last);
    forall c | c in Homes(before.stored.project).Values
      ensures c in before.stored.channels
    {
      var t :| t in Homes(before.stored.project) && Homes(before.stored.project)[t] == c;
    }
  }

  lemma UndoneAreCreated(start: Stored, last: Job)
    requires IsOwn(start, last.world.stored.channels, last.ledger.created)
    ensures UndoneChannels(start.project, last.ledger) == last.ledger.created.Values
    ensures last.ledger.created.Values !! start.channels.Keys
  {
  }

  // ----- Series of migrations

  /** One call of `executeMigration`, with the worlds before and after it. */
  datatype Episode = Episode(before: World, migration: string, ops: seq<Operation>, up: bool,
                             error: Option<MigrationError>, last: Job, after: World)

  ghost predicate IsEpisode(e: Episode, mentions: (string, string) -> bool) {
    IsExecuted(e.before, e.migration, e.ops, e.up, mentions, e.error, e.last, e.after)
  }

  /** Between two migrations, rows may be written and indexed, and calls may begin to fail. */
  predicate Continues(a: World, b: World) {
    && b.stored.project == a.stored.project && b.stored.schemas == a.stored.schemas
    && b.stored.channels.Keys == a.stored.channels.Keys && b.nextChannel >= a.nextChannel
  }

  ghost predicate IsSeries(es: seq<Episode>, mentions: (string, string) -> bool) {
    && (forall i :: 0 <= i < |es| ==> IsEpisode(es[i], mentions))
    && forall i :: 0 < i < |es| ==> Continues(es[i - 1].after, es[i].before)
  }

  /** What the failures of a series have left behind. */
  ghost function RetakenIn(es: seq<Episode>, mentions: (string, string) -> bool): set<string> {
    if es == [] then {}
    else
      var e := es[|es| - 1];
      RetakenIn(es[..|es| - 1], mentions) + if e.error == None then {} else Retaken(e.before, e.ops, mentions)
  }

  ghost function ForsakenIn(es: seq<Episode>, mentions: (string, string) -> bool): set<nat> {
    if es == [] then {}
    else
      var e := es[|es| - 1];
      ForsakenIn(es[..|es| - 1], mentions) + if e.error == None then {} else Forsaken(e.before, e.ops, mentions)
  }

  /** From one state to another, these tables have been taken back and these channels left behind. */
  ghost predicate AddsUp(first: Stored, end: Stored, retaken: set<string>, forsaken: set<nat>) {
    Strays(end) == Strays(first) + retaken && Orphans(end) == Orphans(first) + forsaken
  }

  lemma AddUp(first: Stored, mid: Stored, end: Stored, a: set<string>, b: set<nat>, a': set<string>, b': set<nat>)
    requires AddsUp(first, mid, a, b) && AddsUp(mid, end, a', b')
    ensures AddsUp(first, end, a + a', b + b')
  {
  }

  lemma EpisodeAccounts(e: Episode, mentions: (string, string) -> bool)
    requires IsStart(e.before) && IsAnchored(e.before.stored) && IsEpisode(e, mentions)
    ensures IsStart(e.after) && IsAnchored(e.after.stored)
    ensures AddsUp(e.before.stored, e.after.stored, RetakenIn([e], mentions), ForsakenIn([e], mentions))
  {
    OneEpisode(e, mentions);
    if e.error == None {
      SuccessKeepsAccounts(e.before, e.migration, e.ops, e.up, mentions, e.after);
    } else {
      FailureAddsUp(e.before, e.migration, e.ops, e.up, mentions, e.error.value, e.last, e.after);
    }
  }

  lemma OneEpisode(e: Episode, mentions: (string, string) -> bool)
    ensures RetakenIn([e], mentions) == if e.error == None then {} else Retaken(e.before, e.ops, mentions)
    ensures ForsakenIn([e], mentions) == if e.error == None then {} else Forsaken(e.before, e.ops, mentions)
  {
    assert [e][..0] == [];
  }

  lemma FailureAddsUp(before: World, migration: string, ops: seq<Operation>, up: bool,
                      mentions: (string, string) -> bool, error: MigrationError, last: Job, after: World)
    requires IsStart(before) && IsAnchored(before.stored)
    requires IsExecuted(before, migration, ops, up, mentions, Some(error), last, after)
    ensures IsStart(after) && IsAnchored(after.stored)
    ensures AddsUp(before.stored, after.stored, Retaken(before, ops, mentions), Forsaken(before, ops, mentions))
  {
    SettledAfterFailure(before, migration, ops, up, mentions, error, last, after);
    FailureKeepsChannels(before, migration, ops, up, mentions, error, last, after);
  }

  lemma ContinuesAccounts(a: World, b: World)
    requires IsStart(a) && IsAnchored(a.stored) && Continues(a, b)
    ensures IsStart(b) && IsAnchored(b.stored) && AddsUp(a.stored, b.stored, {}, {})
  {
    assert forall t :: t in Homes(a.stored.project) ==> Homes(a.stored.project)[t] in a.stored.channels;
  }

  /**
   * After any series of migrations, each succeeding, or failing at any call and being given up, the tables whose schema
   * and channel do not go together are those of the beginning and those a failed migration has taken back, and the
   * channels without a table are those of the beginning and those a failed migration has left behind.
   */
  lemma {:induction false} SeriesKeepsAccounts(es: seq<Episode>, mentions: (string, string) -> bool)
    requires es != [] && IsSeries(es, mentions) && IsStart(es[0].before) && IsAnchored(es[0].before.stored)
    ensures var first, end := es[0].before.stored, es[|es| - 1].after.stored;
      && IsStart(es[|es| - 1].after) && IsAnchored(end)
      && AddsUp(first, end, RetakenIn(es, mentions), ForsakenIn(es, mentions))
    decreases |es|
  {
    var n, front := |es| - 1, es[..|es| - 1];
    SeriesFront(es, mentions);
    if n == 0 {
      assert front == [];
      EpisodeAccounts(es[0], mentions);
    } else {
      assert front[0] == es[0] && front[|front| - 1] == es[n - 1];
      SeriesKeepsAccounts(front, mentions);
      OneMoreEpisode(es[0].before.stored, es[n - 1].after, es[n], mentions, RetakenIn(front, mentions),
                     ForsakenIn(front, mentions));
    }
  }

  lemma OneMoreEpisode(first: Stored, mid: World, e: Episode, mentions: (string, string) -> bool, retaken: set<string>,
                       forsaken: set<nat>)
    requires IsStart(mid) && IsAnchored(mid.stored) && Continues(mid, e.before) && IsEpisode(e, mentions)
    requires AddsUp(first, mid.stored, retaken, forsaken)
    ensures IsStart(e.after) && IsAnchored(e.after.stored)
    ensures AddsUp(first, e.after.stored, retaken + RetakenIn([e], mentions), forsaken + ForsakenIn([e], mentions))
  {
    ContinuesAccounts(mid, e.before);
    EpisodeAccounts(e, mentions);
    AddUp(first, mid.stored, e.before.stored, retaken, forsaken, {}, {});
    AddUp(first, e.before.stored, e.after.stored, retaken, forsaken, RetakenIn([e], mentions),
          ForsakenIn([e], mentions));
  }

  lemma SeriesFront(es: seq<Episode>, mentions: (string, string) -> bool)
    requires es != [] && IsSeries(es, mentions)
    ensures var front, e := es[..|es| - 1], es[|es| - 1];
      && IsSeries(front, mentions) && IsEpisode(e, mentions)
      && (front != [] ==> Continues(front[|front| - 1].after, e.before))
      && RetakenIn(es, mentions) == RetakenIn(front, mentions) + RetakenIn([e], mentions)
      && ForsakenIn(es, mentions) == ForsakenIn(front, mentions) + ForsakenIn([e], mentions)
  {
    var front, e := es[..|es| - 1], es[|es| - 1];
    assert [e][..0] == [];
    assert forall i :: 0 <= i < |front| ==> front[i] == es[i];
    assert IsEpisode(es[|es| - 1], mentions);
  }

  /**
   * So a project whose schemas are those of its live tables stays one as long as no failed migration has taken a
   * dropped table back, and every channel stays that of exactly one table as long as none has left a channel behind.
   */
  lemma SeriesStaysWhole(es: seq<Episode>, mentions: (string, string) -> bool)
    requires es != [] && IsSeries(es, mentions) && IsStart(es[0].before) && IsSettled(es[0].before.stored)
    requires es[0].before.stored.channels.Keys == Homes(es[0].before.stored.project).Values
    ensures var end := es[|es| - 1].after.stored;
      && IsHoused(end.project, end.channels)
      && (IsSettled(end) <==> RetakenIn(es, mentions) == {})
      && (end.channels.Keys == Homes(end.project).Values <==> ForsakenIn(es, mentions) == {})
  {
    var end := es[|es| - 1].after.stored;
    SettledMeans(es[0].before.stored);
    SettledMeans(end);
    SeriesKeepsAccounts(es, mentions);
    HousedOrphans(end);
  }

  lemma HousedOrphans(s: Stored)
    requires IsHoused(s.project, s.channels)
    ensures s.channels.Keys == Homes(s.project).Values <==> Orphans(s) == {}
  {
    forall c | c in Homes(s.project).Values
      ensures c in s.channels
    {
      var t :| t in Homes(s.project) && Homes(s.project)[t] == c;
    }
    assert Homes(s.project).Values <= s.channels.Keys;
    forall c | c in s.channels.Keys
      ensures c in Homes(s.project).Values || c in Orphans(s)
    {
    }
  }
}
