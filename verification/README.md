# OpenBase, verified

OpenBase keeps a small database on an append, edit and delete message log. This project models the parts where a
complicated form has to agree with a simple one, and proves that it does, or exactly when it does.

`dafny verify dfyconfig.toml` checks every module. Code that changes state in the repository is a class or a
method with a loop here, tied by its contract to a function on values; the theorems are about those functions. What the
functions mean is said once more without them, in cells, characters, bits and literal texts: in `Selects`,
`OperationEffects`, `MigrationEffects`, `ChainTexts`, `PresenceHistory`, `OqlText`, `CronText` and `Base32Text`.

| module | what it models |
|---|---|
| `MessageLog` | a channel with strictly increasing message ids, and paging backwards through it |
| `ChainCodec`, `ChainStore`, `ChainRuns`, `ChainTexts` | contents over 4000 characters kept as a head message and part messages, over any list of calls |
| `Rows`, `Tables`, `QueryEngine`, `Selects` | rows, filters, the field index, unique columns |
| `Journal`, `Rollback`, `ChangeEvents`, `Transactions`, `OperationEffects`, `TransactionRules`, `ProjectLock` | transactions undone by compensation, what their operations write, which of them leave no trace, their change events, the project lock |
| `Migrations`, `MigrationSteps`, `ProjectService`, `MigrationService`, `MigrationEffects` | schema migrations over an event log, call by call, and what each operation does to schemas, rows and index |
| `Recovery`, `MigrationRuns`, `SchemaRecovery`, `RowRecovery`, `IndexRecovery` | what a migration leaves when it succeeds, and what a failed one brings back |
| `ProjectAccounts`, `SecondFailures` | schemas, tables and channels over any series of migrations; a way back on which a call throws again |
| `Presence`, `PresenceHub`, `PresenceRuns`, `PresenceHistory`, `RealtimeServer`, `RealtimeClients` | presence replicated by snapshots and diffs |
| `Decimals`, `OqlTokens`, `OqlParser`, `OqlText` | the OQL condition language |
| `FileStorage`, `Uploads`, `Base32`, `Base32Text`, `Cron`, `CronText` | re-partitioned uploads, resumable sessions, base32, the search for the next cron match |
| `Text`, `Wrappers` | numerals, cutting sequences, `Option` and `Result` |

## Where the code keeps less than it seems to

Each of these is proved, and where the promise holds on some inputs, so is the condition under which it does.

- A row whose indexed columns all become null keeps its old index entries. `Tables.WrittenExact` says exactly when a
  write leaves the index exact, and `Tables.AgreementIsExactness` that this is the same thing as indexed selects
  agreeing with full scans.
- An `eq` filter answered from the index compares `String(value)`, so a filter value of another type finds rows that
  the scan does not. `Tables.FaithfulFilters` says for which values both paths agree on every table.
- A transaction that deletes a row it has itself inserted leaves that row behind when it is rolled back
  (`Rollback.InsertThenDeleteLeavesRow`); one that deletes a row it has updated is restored exactly when the update
  changed nothing (`Rollback.UpdateThenDeleteKeepsUpdate`); a deleted row comes back with the defaults it missed, so the
  table is restored exactly when it missed none (`Rollback.DeletedRowGetsDefaults`); an update of several rows that
  assigns a unique column stops after the first and is not undone (`Rollback.UniqueUpdateStopsHalfway`); the index entries
  that an update gives a row are cleared by its undo exactly when the row had an indexed value before or got none
  (`Rollback.UndoneUpdateIndex`), and an entry left behind keeps another row from being put back
  (`Rollback.GainedKeyBlocks`).
  `TransactionRules.SafeTransactionRestores` gives conditions on the operations under which a transaction that throws
  leaves every table as it was.
- A holder that stays in the project lock beyond the expiry shares it, with another holder or with the next call to come
  (`ProjectLock.OverstayerShares`): the lock excludes exactly in the runs without such a holder
  (`ProjectLock.ExclusionIsTimeliness`). Its late `DEL` removes the next holder's key, so that a third call gets in
  (`ProjectLock.LateDeleteFreesTheLock`).
- A failed migration puts rows back through the query engine, which may refuse them against the half-migrated table;
  the error is swallowed and the old schema saved all the same. `RowRecovery.SwapLosesRows` is a run of two renamings
  after which no row comes back; `RowRecovery.RowsComeBackExactly` says for which operations a table's rows do, and
  `RowRecovery.GentleRowsComeBack` that they do when no operation brings a value into a unique column.
- A failed migration brings the schemas back exactly when the operations on each table before the first that takes a
  snapshot leave its definition as it was (`SchemaRecovery.SchemasComeBack`). `add_index`, `remove_index`, `replace_rls`
  and creating a table again that was dropped earlier take none: what they change stays
  (`SchemaRecovery.LooseOperationStays`). An index added this way stays empty (`SchemaRecovery.AddedIndexLags`), and a
  table created again this way has a schema but no live channel, so that no migration can ever create or drop it
  (`SchemaRecovery.RecreationSticks`, `SchemaRecovery.StuckStays`).
- A failed migration leaves the index of a table it has looked at right exactly when putting the rows back puts it right
  (`IndexRecovery.IndexComesBack`): entries of rows without an indexed value are not cleared. The index of another table
  stays what it was, whether or not the schema left to it asks for that (`IndexRecovery.UnlookedIndexStays`). The next
  migration that succeeds and does more to the table than replace its policies repairs it
  (`IndexRecovery.SuccessRepairs`).
- A failed migration leaves a channel without a table exactly when it had made the channel of a new table and then saving
  the channel map or announcing the schema threw (`ProjectAccounts.FailureKeepsChannels`).
- When a call of the way back throws as well: if it is the first one, nothing is restored
  (`SecondFailures.NothingIsRestored`); any other costs one table what the call was for
  (`SecondFailures.LapseCostsOneTable`), which may be a schema of a table that has no channel any more
  (`SecondFailures.UnannouncedRemovalSticks`).
- Content stored as one message reads back as itself at once exactly when it is no chain head with a first line
  (`ChainRuns.SendAndGet`), and goes with an earlier message exactly when it reads as a part of it
  (`ChainRuns.SendAndDeleteEarlier`).
- The cron search stops after 30 days, so a job for the first of the month, asked for at the first midnight of a month
  with 31 days, has no next run (`Cron.FirstOfMonthMissed`).
- `a and b`, with no comparison in it, is accepted as a comparison whose operator is `and`
  (`OqlParser.ConnectiveAsComparison`).
- Presence channels are read off room names by counting colons, which works exactly for project ids without a colon
  (`Presence.ChannelOfRoomName`).
- A resumable upload of an empty blob cannot be completed (`Uploads.UploadResumable`).

## Model

| member | source | states |
|---|---|---|
| MessageLog.PageStep | packages/telegram/src/MockStorageProvider.ts:190-207 | a page is the next stretch of the backward walk, newest first, and its last id is the offset that continues it; a short page means the walk is at its end |
| ChainTexts.PageMeans | packages/telegram/src/MockStorageProvider.ts:190-207 | a page shows the newest of the messages between the two ids of the request, newest first, as many as the limit lets through |
| MessageLog.Channel.Send | packages/telegram/src/MockStorageProvider.ts:131-147 | the body is stored under an id never used before, and nothing else changes |
| MessageLog.Channel.Edit | packages/telegram/src/MockStorageProvider.ts:149-159 | an existing message gets the new body, a missing one is reported, all others keep theirs |
| MessageLog.Channel.Delete | packages/telegram/src/TelegramStorageProvider.ts:662-665 | exactly the named messages go, as the Telegram client deletes them; ids without a message are ignored |
| MessageLog.Channel.GetAllMessages | apps/api/src/projects/ProjectService.ts:309-332 | paging with limit 200 and a moving offset ends and yields every message once, newest first, for any channel size |
| MessageLog.Channel.FetchAllMessages | apps/api/src/database/QueryEngine.ts:254-278 | the sorted result is every message once by ascending id |
| ChainCodec.CellRoundTrip | packages/telegram/src/TelegramStorageProvider.ts:677-715 | plain, head and part messages are recognised as what they are and their fields are read back, by every reader of headers that reads back the written ones |
| ChainCodec.StrictReadsBack | packages/telegram/src/TelegramStorageProvider.ts:677-715 | there is such a reader: the numerals and plain chain ids of the written headers are read back from their JSON |
| ChainCodec.RenderedLength | packages/telegram/src/TelegramStorageProvider.ts:552-564 | with a 36-character chain id and a full piece, head and part stay within 4000 characters exactly up to the stated number of digits |
| ChainCodec.UnmarkedIsUnambiguous | packages/telegram/src/TelegramStorageProvider.ts:30-32 | content without the chain marker in front is never mistaken for a head or a part |
| ChainStore.SplitIntoParts | packages/telegram/src/TelegramStorageProvider.ts:717-726 | the loop cuts the content into pieces of 3800 characters; `ChainStore.ContentPieces` says they join to it |
| ChainStore.ContentPieces | packages/telegram/src/TelegramStorageProvider.ts:717-726 | the pieces join to the content, and content over the limit has more than one |
| ChainStore.RepresentedIsChain | packages/telegram/src/TelegramStorageProvider.ts:572-624 | among the later messages of a represented channel every piece of a chained content is found, once, under its index |
| ChainStore.GatheredAll | packages/telegram/src/TelegramStorageProvider.ts:588-621 | when the collected count reaches the total, or the walk ends, all pieces have been gathered |
| ChainStore.JoinComplete | packages/telegram/src/TelegramStorageProvider.ts:623-623 | joining the sparse array of pieces gives the content |
| ChainStore.DoomedAreParts | packages/telegram/src/TelegramStorageProvider.ts:627-666 | the messages picked out for deletion are exactly the parts of the message being edited or deleted |
| ChainStore.DoomedWindow | packages/telegram/src/TelegramStorageProvider.ts:627-666 | the walk over the later messages finds all of them |
| ChainStore.Forget | packages/telegram/src/TelegramStorageProvider.ts:189-196 | without a message and its parts the channel represents the other contents, untouched |
| ChainStore.AddPart | packages/telegram/src/TelegramStorageProvider.ts:557-566 | one more part keeps the channel representing the other contents and the growing one: no part orphaned or doubled |
| ChainStore.TelegramStorageProvider.SendMessage | packages/telegram/src/TelegramStorageProvider.ts:141-152 | refines a map: the content is stored under an id never given before, every other content is unchanged, new inner messages have new ids too; a short content, whatever it looks like, is the newest message |
| ChainStore.TelegramStorageProvider.SendChainedMessage | packages/telegram/src/TelegramStorageProvider.ts:550-569 | the same for content cut into head and parts, which take the ids after it |
| ChainStore.TelegramStorageProvider.EditMessage | packages/telegram/src/TelegramStorageProvider.ts:155-186 | refines a map: an existing id gets the new content whatever the lengths, a missing one is an error, the others keep theirs and no part is left over; new parts have new ids |
| ChainStore.TelegramStorageProvider.DeleteMessage | packages/telegram/src/TelegramStorageProvider.ts:189-196 | exactly the message and the later messages that read as its parts go; in a map of contents, the id goes and the others keep their content |
| ChainStore.TelegramStorageProvider.GetMessage | packages/telegram/src/TelegramStorageProvider.ts:199-215 | the last content written under the id, or nothing exactly when there is no such message; for the newest message, what is behind its header |
| ChainStore.TelegramStorageProvider.ReconstructChainedMessage | packages/telegram/src/TelegramStorageProvider.ts:572-624 | when the later messages hold a chain, the pages read backwards join to its content |
| ChainStore.TelegramStorageProvider.DeleteChainParts | packages/telegram/src/TelegramStorageProvider.ts:627-666 | exactly the later messages that name the parent or the chain are deleted |
| ChainRuns.Run | packages/telegram/src/TelegramStorageProvider.ts:141-215 | every list of sends, edits, deletes and gets, on any ids the client was given, is answered as a plain map id -> content answers it, and no id is ever given twice |
| ChainRuns.DeletedReadsNothing | packages/telegram/src/TelegramStorageProvider.ts:189-215 | in any run, a message that was deleted reads as nothing ever after |
| ChainRuns.SendAndGet | packages/telegram/src/TelegramStorageProvider.ts:141-215 | any content sent and read at once comes back if and only if it is chained, or reads as no head, or has no line break |
| ChainRuns.SendAndDeleteEarlier | packages/telegram/src/TelegramStorageProvider.ts:627-666 | a content sent after another one disappears with it if and only if it reads as a part of it |
| ChainTexts.ChannelHolds | packages/telegram/src/TelegramStorageProvider.ts:141-186 | the channel of a valid provider, message by message: a content of up to 4000 characters as it is, a longer one as a head with the literal marker, total and chain id before the first of its pieces of 3800, the others in later messages that name chain, index and parent; and nothing else |
| ChainTexts.PartIsDoomed | packages/telegram/src/TelegramStorageProvider.ts:627-666 | a message that reads as a part goes with the message it names and with every message of its chain; it is gathered for the message it names, or for every message of its chain when it names none |
| ChainTexts.OthersAreNotDoomed | packages/telegram/src/TelegramStorageProvider.ts:627-666 | what does not begin with `__CHAIN__` goes with no message |
| ChainTexts.UuidsArePlain | packages/telegram/src/TelegramStorageProvider.ts:550-569 | hexadecimal digits and hyphens need no escape in a header |
| Rows.ShowInjective | apps/api/src/database/QueryEngine.ts:46-51 | `String` tells the values of one scalar type apart |
| Rows.ValidRowTyped | apps/api/src/database/QueryEngine.ts:322-359 | in an accepted row every non-null value has its column's type and no required column without a default is missing |
| Rows.DefaultsComplete | apps/api/src/database/QueryEngine.ts:361-382 | defaults fill what is missing and keep what is given |
| Rows.CompleteUnchanged | apps/api/src/database/QueryEngine.ts:361-382 | defaults change a row if and only if it misses one |
| Tables.WrittenUnique | apps/api/src/database/QueryEngine.ts:280-302 | an accepted write leaves no two live rows with one value in a unique scalar column, on either path of the check |
| Tables.WrittenSound | apps/api/src/database/QueryEngine.ts:114-129 | an accepted write keeps the index covering all rows, free of dead entries, and the rows valid and unique |
| Tables.WrittenExact | apps/api/src/database/QueryEngine.ts:304-320 | a write keeps the index exact if and only if the new row has an indexed value or there was no entry to clear |
| Tables.IndexAgreesWithScan | apps/api/src/database/QueryEngine.ts:38-90 | with an exact index and a typed filter value, the indexed select finds exactly the rows of the full scan |
| Tables.AgreementIsExactness | apps/api/src/database/QueryEngine.ts:38-90 | both paths agree on all typed filters if and only if the index is exact |
| Tables.StaleKeyMisleads | apps/api/src/database/QueryEngine.ts:317-319 | any entry its row no longer justifies makes some select wrong |
| Tables.FaithfulFilters | apps/api/src/database/QueryEngine.ts:46-51 | on any indexed scalar column of any schema, a filter value agrees with the scan on every table if and only if it has the column's type, or prints like no value of that type and is not the null of a column that may stay empty |
| Tables.RunSound | apps/api/src/database/QueryEngine.ts:114-252 | over every run of inserts, replacements and deletions, also ones that stop part-way, unique columns stay unique; the index stays exact when every written row has an indexed value |
| QueryEngine.IndexManager.Lookup | apps/api/src/database/IndexManager.ts:58-68 | each id of a matching entry once, and no other |
| QueryEngine.IndexManager.UpdateIndex | apps/api/src/database/IndexManager.ts:88-103 | the message's old entries go, the new ones come, other messages and tables keep theirs |
| QueryEngine.IndexManager.AddIndexBatch | apps/api/src/database/IndexManager.ts:47-56 | the entries are added to the table's, other tables keep theirs |
| QueryEngine.TwoMatchesSuffice | apps/api/src/database/QueryEngine.ts:290-300 | reading at most two matches is enough to know whether another row has the value |
| QueryEngine.QueryEngine.Select | apps/api/src/database/QueryEngine.ts:33-112 | the found rows, each once, or as many as the limit lets through, on the scan path those with the least ids, in order; `Selects` says what is found |
| QueryEngine.QueryEngine.EnsureUniqueConstraints | apps/api/src/database/QueryEngine.ts:280-302 | reports the first unique column whose value another row has |
| QueryEngine.QueryEngine.Insert | apps/api/src/database/QueryEngine.ts:114-129 | a refused row changes nothing; an accepted one is stored with its defaults and index entries |
| QueryEngine.QueryEngine.ReplaceRows | apps/api/src/database/QueryEngine.ts:226-252 | the rows before the first refused one are written, with the reason for stopping |
| QueryEngine.QueryEngine.DeleteRows | apps/api/src/database/QueryEngine.ts:209-224 | the rows before the first missing one are deleted, with their index entries |
| Selects.EqFinds | apps/api/src/database/filtering.ts:7-8 | on the scan path `eq` finds exactly the rows whose column holds the value, which is no object |
| Selects.NeqFinds | apps/api/src/database/filtering.ts:9-10 | `neq` finds exactly the rows whose column is missing, holds an object, or holds another value |
| Selects.InFinds | apps/api/src/database/filtering.ts:25-26 | `in` finds exactly the rows whose column holds a value of the list that is no object |
| Selects.IsNullFinds | apps/api/src/database/filtering.ts:27-28 | `is null` finds exactly the rows whose column is missing or null |
| Selects.IsFinds | apps/api/src/database/filtering.ts:27-28 | `is` with another value finds exactly the rows whose column holds it, unless it is an object |
| Selects.OtherFinds | apps/api/src/database/filtering.ts:11-24 | any other operator finds exactly the rows whose cell passes its test against the value |
| Selects.AllFind | apps/api/src/database/QueryEngine.ts:85-91 | several filters find exactly the rows that each of them finds alone, on the scan path, and on the index path when the index is exact and the value typed |
| Selects.EqFindsPrinted | apps/api/src/database/QueryEngine.ts:38-66 | the first `eq` filter on an index is answered from it: the rows whose value prints as the filter's, whatever their types, that the other filters find |
| Selects.LimitedAnswer | apps/api/src/database/QueryEngine.ts:101-103 | with a limit the answer is part of the whole one, as long as the limit lets it be |
| Selects.FirstComplaint | apps/api/src/database/QueryEngine.ts:322-359 | a row is refused with the complaint of the first column that requires an empty cell or holds a value of another type, type by type |
| Selects.AcceptedWhen | apps/api/src/database/QueryEngine.ts:114-129 | on a good table a row is accepted if and only if no column complains and no other row holds one of its unique values |
| Selects.InsertStores | apps/api/src/database/QueryEngine.ts:361-382 | an accepted insert stores one row under the next id: the cells given, and for each missing one the column's default, else the generated id for a uuid column `id`, else the clock for a timestamp `created_at` or `updated_at`, else nothing |
| Selects.ExactMeans | apps/api/src/database/QueryEngine.ts:304-320 | the index is exact if and only if it has an entry for the printed value of every non-null cell of an indexed column that is not encrypted, and no others |
| Journal.UnclaimedAccepted | apps/api/src/database/QueryEngine.ts:280-302 | on an index that is exact but for old entries of rows without an indexed value, none of which has the value of a unique column that the new row gets, the unique check raises no false alarm |
| Journal.WrittenReserved | apps/api/src/database/QueryEngine.ts:280-320 | no index entry, not even an old one that its row no longer justifies, has a value of a unique column that another row has; every accepted write keeps that |
| Rollback.UndoOne | apps/api/src/transactions/TransactionService.ts:82-119 | undoing one operation, on a table that matches the state after it up to renamed ids, gives the state before it up to renamed ids, and the index entries of the rows the transaction wrote before |
| Rollback.RollbackRestores | apps/api/src/transactions/TransactionService.ts:189-224 | running the undo actions in reverse restores the rows of every table as a multiset, with the index exact, for every journal that keeps the rules |
| Rollback.ThrownTransactionRestores | apps/api/src/transactions/TransactionService.ts:189-224 | the same when the last operation fails part-way |
| Rollback.FailedUpdateWroteNothing | apps/api/src/transactions/TransactionService.ts:153-187 | an update that fails has written nothing, so it needs no undo action, unless it gives several rows a value for a unique column |
| Rollback.InsertThenDeleteLeavesRow | apps/api/src/transactions/TransactionService.ts:191-201 | a row inserted and deleted by one transaction is left behind by its rollback, always |
| Rollback.UpdateThenDeleteKeepsUpdate | apps/api/src/transactions/TransactionService.ts:191-221 | a row updated and deleted by one transaction is restored if and only if the update changed nothing |
| Rollback.UniqueUpdateStopsHalfway | apps/api/src/transactions/TransactionService.ts:165-169 | assigning one unique value to two rows writes the first and fails on the second; with no undo action for it, the rollback restores the rows if and only if the update changed nothing in the first |
| Rollback.DeletedRowGetsDefaults | apps/api/src/transactions/TransactionService.ts:191-201 | a deleted row that is inserted anew by the rollback gives the old rows if and only if it missed no default |
| Rollback.UndoneUpdateIndex | apps/api/src/transactions/TransactionService.ts:165-169 | undoing an update of one row always brings the row back, and an exact index if and only if the row had an indexed value before or got none |
| Rollback.GainedKeyBlocks | apps/api/src/transactions/TransactionService.ts:165-224 | one update frees a unique indexed value, a second one gives it to a row that had no indexed value, and the transaction throws: the first row is not put back, and the table does not hold its starting rows |
| ChangeEvents.CommitReplays | apps/api/src/transactions/TransactionService.ts:89-94 | folding the events of a commit in order over the starting rows gives exactly the final rows of every table |
| Transactions.TransactionService.Execute | apps/api/src/transactions/TransactionService.ts:42-239 | on success every operation has had, in order, exactly the effect it asks for on the tables the ones before it left, and the events of these effects are emitted; on a failure the first failing operation, the reason and what it had written are right, no event is emitted, and the tables are those after the reversed undo actions |
| Transactions.TransactionService.DoOperation | apps/api/src/transactions/TransactionService.ts:55-187 | an insert writes its values with their defaults in order; an update patches and a delete removes all rows its filters find and the caller has a right to, and no others, if the condition is met; otherwise the reason of the failure and the rows a failing update has written |
| Transactions.TransactionService.DoUpsert | apps/api/src/transactions/TransactionService.ts:96-147 | inserts when the conflict columns match no row, and otherwise patches one row they match |
| Transactions.TransactionService.SelectTargets | apps/api/src/transactions/TransactionService.ts:151-160 | all rows the filters find that the caller has a right to, each once, and no others |
| Transactions.TransactionService.RunUndo | apps/api/src/transactions/TransactionService.ts:82-119 | one undo action: drop the inserted row, put the old rows back, or insert the deleted rows anew, up to the first refusal |
| Transactions.TransactionService.Rollback | apps/api/src/transactions/TransactionService.ts:219-224 | the actions run in reverse order, errors swallowed |
| OperationEffects.UpdateMeans | apps/api/src/transactions/TransactionService.ts:151-187 | an update that is carried out leaves, in every row its filters find and the caller may update, the clock in a timestamp column `updated_at`, the patch's values in the patch's other columns and the old cells elsewhere; every other row and table is as before, and the condition was met |
| OperationEffects.UpdateExecuted | apps/api/src/transactions/TransactionService.ts:42-187 | the same for a whole transaction that is one update, from what `Transactions.TransactionService.Execute` ensures |
| OperationEffects.DeleteMeans | apps/api/src/transactions/TransactionService.ts:189-216 | a delete that is carried out takes away exactly the rows its filters find and the caller may delete, and their index entries |
| OperationEffects.InsertMeans | apps/api/src/transactions/TransactionService.ts:71-94 | an insert that is carried out was allowed for every value, and stores one completed row for each, in order |
| OperationEffects.UpsertMeans | apps/api/src/transactions/TransactionService.ts:96-147 | each value of an upsert patches, cell by cell, one row with the same values in the conflict columns, `id` by default, unless the caller may not update it, and is stored as a new row if and only if there is none; it was allowed, and its condition met |
| OperationEffects.ConditionFails | apps/api/src/transactions/TransactionService.ts:270-293 | an update or a delete fails for its condition if and only if the number or the ids of its targets are not the expected ones |
| OperationEffects.ForbiddenWhen | apps/api/src/transactions/TransactionService.ts:71-79 | an insert or an upsert is forbidden if and only if the caller may not insert one of its values |
| OperationEffects.EventsTell | apps/api/src/transactions/TransactionService.ts:89-94 | each event names the old and the new row of one message as they are before and after, and every row that changes has an event |
| TransactionRules.SafeTransactionRestores | apps/api/src/transactions/TransactionService.ts:42-224 | a transaction that throws, at any operation and for any reason, leaves every table with its starting rows, an exact index and unique columns, if its updates give indexed values only while every row of the table has one, and a unique value to one row at most, and deletions from a table come before all writing to it and concern rows that miss no default |
| ProjectLock.RunOwnersHoldKey | apps/api/src/transactions/TransactionService.ts:241-267 | in every run whose holders finish within the expiry, a call between entering and leaving owns the key |
| ProjectLock.MutualExclusion | apps/api/src/transactions/TransactionService.ts:241-267 | at most one call is inside, and a delete only ever removes the deleting call's own key |
| ProjectLock.OthersStayOut | apps/api/src/transactions/TransactionService.ts:246-256 | while one call is inside another one waits or, after five seconds, is rejected |
| ProjectLock.OverstayerShares | apps/api/src/transactions/TransactionService.ts:241-267 | in every run, while a holder is past its expiry, another call is inside as well, or the next one to come gets in |
| ProjectLock.ExclusionIsTimeliness | apps/api/src/transactions/TransactionService.ts:241-267 | in a run at no time two calls are inside, nor would be if one more call came, if and only if no holder is ever past its expiry |
| ProjectLock.LateDeleteFreesTheLock | apps/api/src/transactions/TransactionService.ts:258-266 | in every run, the DEL of a holder past its expiry that has read its own token takes the key of the call that came after it, and a third call gets in while that one is in time |
| ProjectLock.FreeLockIsTaken | apps/api/src/transactions/TransactionService.ts:246-251 | in every run, when nobody is inside, a waiting call that tries gets in and has the key for ten seconds |
| ProjectLock.LeavingFreesTheLock | apps/api/src/transactions/TransactionService.ts:258-266 | in a timely run a call that leaves frees the lock |
| ProjectLock.LateReaderSparesTheKey | apps/api/src/transactions/TransactionService.ts:258-266 | in every run a holder past its expiry that reads another call's token leaves that call its key |
| ProjectLock.WaitsFiveSeconds | apps/api/src/transactions/TransactionService.ts:244-256 | in every run a call is rejected no sooner than five seconds after its arrival |
| ProjectLock.OverstayingBreaksTheLock | apps/api/src/transactions/TransactionService.ts:258-266 | a run in which the expiry passes lets two calls in, and the late delete takes the second one's key |
| Migrations.AddThenRemove | apps/api/src/migrations/MigrationService.ts:216-274 | removing a column takes back its addition if and only if no index of that name was there before |
| Migrations.RenameThenBack | apps/api/src/migrations/MigrationService.ts:276-305 | renaming back takes back a renaming if and only if no index of the new name was there before |
| ProjectService.ProjectService.GetSchemas | apps/api/src/projects/ProjectService.ts:200-227 | reading the channel backwards and playing it forwards gives the last word on each table |
| ProjectService.ProjectService.ListApplied | apps/api/src/migrations/MigrationService.ts:517-561 | reading the history gives the migrations whose last entry went up |
| MigrationEffects.LastWordOnTable | apps/api/src/projects/ProjectService.ts:200-227 | the last event about a table decides its schema |
| MigrationEffects.LastWordOnMigration | apps/api/src/migrations/MigrationService.ts:550-561 | the last entry about a migration decides whether it is applied |
| ProjectService.ProjectService.UpdateProject | apps/api/src/projects/ProjectService.ts:146-151 | the stored channel maps are replaced, or, when the call fails, kept |
| ProjectService.ProjectService.SendEvent | apps/api/src/projects/ProjectService.ts:177-198 | one more event in the schema channel changes the replayed schemas by just that event |
| ProjectService.ProjectService.AddTable | apps/api/src/projects/ProjectService.ts:161-175 | a new channel, its name in the live map and its schema in the channel, in this order; a live table is refused, and a call that throws leaves what came before it |
| ProjectService.ProjectService.ReplaceRows | apps/api/src/migrations/MigrationService.ts:457-474 | the rows are checked, edited and indexed one by one by ascending id; the first refused row or failing call stops it with the rows before it written |
| ProjectService.ProjectService.RebuildIndexes | apps/api/src/migrations/MigrationService.ts:476-515 | the table's index holds exactly the non-null, unencrypted indexed values of its rows |
| Recovery.RowsWrittenTable | apps/api/src/database/QueryEngine.ts:226-252 | unless a call throws, the rows of a migration are written, and refused, as `QueryEngine.QueryEngine.ReplaceRows` writes and refuses them; if one does, up to some row, which may lack its index entries |
| Recovery.RanTracks | apps/api/src/migrations/MigrationService.ts:113-125 | at every moment of every migration, also when a call throws, each table of the start has its channel, and its rows or a snapshot of them, and the channels made are apart from the others |
| MigrationService.MigrationService.ApplyOperation | apps/api/src/migrations/MigrationService.ts:156-371 | whether it succeeds, is refused or a call throws: project record, schemas, rows, index, snapshots and created channels are those of `MigrationSteps.Operated`, which the theorems below are about |
| MigrationService.MigrationService.ReviveTable | apps/api/src/migrations/MigrationService.ts:172-193 | an archived channel moves back to the live map and then its schema is announced |
| MigrationService.MigrationService.SnapshotTable | apps/api/src/migrations/MigrationService.ts:421-437 | the rows and the schema at the first look at a table are kept |
| MigrationService.MigrationService.DropTable | apps/api/src/migrations/MigrationService.ts:194-214 | after a snapshot the channel moves to the archive, then the schema goes, then the index |
| MigrationService.MigrationService.RewriteTable | apps/api/src/migrations/MigrationService.ts:216-326 | after a snapshot all rows are read, mapped and only then written back through the query engine, which may refuse one; then the new schema is announced |
| MigrationService.MigrationService.RestoreProjectState | apps/api/src/migrations/MigrationService.ts:373-404 | channel maps are those of the start, or nothing is restored; the rows of each snapshot are written up to the first refused one or failing call, and its schema is announced all the same; channels made go; a call that throws is swallowed and costs what it was for |
| MigrationService.MigrationService.RedefineTable | apps/api/src/migrations/MigrationService.ts:328-370 | a new definition is announced, without a snapshot |
| MigrationService.MigrationService.RebuildTouched | apps/api/src/migrations/MigrationService.ts:127-133 | the index of every touched live table is filled from its rows, the others stay; a call that throws leaves some of them as before, emptied or filled |
| MigrationService.MigrationService.ExecuteMigration | apps/api/src/migrations/MigrationService.ts:92-154 | success: all operations, then the rebuilt indexes, then the record; failure at any call or refusal: the state in which it stopped, and what giving up makes of it when no further call or any one of them throws; whatever happens, every table keeps a channel of its own, so the next migration is covered |
| MigrationService.MigrationService.Apply | apps/api/src/migrations/MigrationService.ts:62-75 | a migration that is applied is refused and changes nothing, any other is executed |
| MigrationService.MigrationService.Rollback | apps/api/src/migrations/MigrationService.ts:77-90 | a migration that is not applied is refused and changes nothing, any other is executed |
| MigrationRuns.OthersStay | apps/api/src/migrations/MigrationService.ts:92-154 | a table that no operation names keeps its schema, channel, rows and index through any migration, successful or failed at any call |
| MigrationRuns.AnsweredOutcome | apps/api/src/migrations/MigrationService.ts:113-153 | on a storage that answers, a migration fails exactly when an operation is refused, with its reason |
| MigrationRuns.SuccessIsWhole | apps/api/src/migrations/MigrationService.ts:113-148 | after a success the schemas are the operations applied in order, every table has the channel it had, and its rows are the old ones as the operations on it map them |
| MigrationRuns.SuccessIsCurrent | apps/api/src/migrations/MigrationService.ts:127-133 | an index that was as it should be is so after a success |
| MigrationEffects.SuccessInStages | apps/api/src/migrations/MigrationService.ts:113-148 | a migration that succeeds goes from operation to operation, none of them refused, each changing its own table alone: schema, rows and channel as the lemmas below say |
| MigrationEffects.OneOperation | apps/api/src/migrations/MigrationService.ts:216-326 | the rows of a table after a migration of one operation are the old ones as `MigrationEffects.RewrittenFollow` says |
| MigrationEffects.RewrittenFollow | apps/api/src/migrations/MigrationService.ts:236-322 | row by row, all other columns as before: a removed column is gone; a renamed one has its value under the new name; a retyped one has what the coercion gives, null stays null; an added one has the literal, else the default, else the generated `id`, else the clock, else null, and is left out when it is optional and there is nothing to fill in |
| MigrationEffects.NextFollows | apps/api/src/migrations/MigrationService.ts:216-371 | what each operation makes of columns, indexes and policies, element by element and in order |
| MigrationEffects.ObjectionMeans | apps/api/src/migrations/MigrationService.ts:166-345 | an operation is refused at once if and only if there is one of the stated conflicts, missing names or invalid indexes and policies, and with that reason |
| MigrationEffects.OperatedOutcome | apps/api/src/migrations/MigrationService.ts:156-371 | on a storage that answers, an operation fails if and only if it is refused, its table is not live, a required column has nothing to fill in, a value cannot be coerced, or the query engine refuses a row; the answer is a reason there is |
| MigrationEffects.SuccessIsRecorded | apps/api/src/migrations/MigrationService.ts:135-148 | after a success the migration counts as applied if and only if it went up, and no other one is affected |
| MigrationEffects.CurrentMeans | apps/api/src/migrations/MigrationService.ts:476-515 | an index is as it should be if and only if it holds the printed non-null values of the unencrypted indexed columns of the live table, and no others |
| MigrationRuns.DropKeepsRows | apps/api/src/migrations/MigrationService.ts:194-214 | a migration that drops a table keeps its channel and its rows, and empties its index |
| MigrationRuns.CreateFindsRows | apps/api/src/migrations/MigrationService.ts:172-193 | a migration that creates a dropped table takes up its channel and its rows, and its index holds their values under the new schema |
| MigrationRuns.DropThenCreate | apps/api/src/migrations/MigrationService.ts:172-214 | dropping a table and creating it again in one migration brings back channel, rows and their index entries; with the old schema all is as it was |
| MigrationRuns.DropThenCreateLater | apps/api/src/migrations/MigrationService.ts:172-214 | the same in two migrations, with any between them that do not name the table |
| MigrationRuns.DropThenCreateSucceeds | apps/api/src/migrations/MigrationService.ts:172-214 | on a storage that answers, the two operations succeed if and only if the schema indexes no encrypted column |
| ProjectAccounts.OperatedStrays | apps/api/src/migrations/MigrationService.ts:165-371 | every operation that is carried out leaves the same tables with a schema and no live channel, and the same with a live channel and no schema: none, if there was none |
| ProjectAccounts.SuccessKeepsAccounts | apps/api/src/migrations/MigrationService.ts:113-148 | a success keeps the schemas those of the live tables, live and dropped names apart, and every channel that of exactly one table, with no other exceptions than there were |
| ProjectAccounts.FailureKeepsChannels | apps/api/src/projects/ProjectService.ts:161-175 | a failure leaves the channels there were, and one more if and only if it made the channel of a new table and saving the channel map or announcing the schema threw |
| ProjectAccounts.SeriesKeepsAccounts | apps/api/src/migrations/MigrationService.ts:92-154 | over any series of migrations, succeeding or failing at any call: exactly which tables have a schema and no live channel, and exactly which channels have no table |
| ProjectAccounts.SeriesStaysWhole | apps/api/src/migrations/MigrationService.ts:92-154 | over any series, the schemas stay those of the live tables if and only if no failed migration has taken a dropped table back, and every channel that of one table if and only if none has left one behind |
| SchemaRecovery.SchemasAfterFailure | apps/api/src/migrations/MigrationService.ts:373-404 | after a failure the definition of every table is the one the operations before its first snapshot have left |
| SchemaRecovery.SchemasComeBack | apps/api/src/migrations/MigrationService.ts:373-404 | a failed migration brings the schemas back if and only if for every table the operations carried out before its first snapshot leave its definition as it was |
| SchemaRecovery.CarefulSchemasComeBack | apps/api/src/migrations/MigrationService.ts:373-404 | whichever call fails, a migration of operations that all take snapshots brings the schemas back |
| SchemaRecovery.HarmlessWhen | apps/api/src/migrations/MigrationService.ts:328-370 | an operation without a snapshot changes nothing if and only if the index is there already, or is not there, or the policies are the same; taking a table back always changes something |
| SchemaRecovery.LooseOperationStays | apps/api/src/migrations/MigrationService.ts:328-370 | a failed migration of one such operation and one that is refused: the change stays |
| SchemaRecovery.RecreationSticks | apps/api/src/migrations/MigrationService.ts:172-193 | a dropped table that a failed migration has created again has a schema and no live channel |
| SchemaRecovery.StuckStays | apps/api/src/migrations/MigrationService.ts:172-214 | no later migration, successful or failed, makes a table live that has a schema and no live channel, or takes its schema away |
| SchemaRecovery.SettledAfterFailure | apps/api/src/migrations/MigrationService.ts:373-404 | after a failure the tables with a schema and no live channel are those of before and the dropped ones the migration has created again before a snapshot; every live table has its schema |
| SchemaRecovery.AddedIndexLags | apps/api/src/migrations/MigrationService.ts:328-346 | an index that a failed migration has added is in the schema but has no entries |
| RowRecovery.RowsComeBack | apps/api/src/migrations/MigrationService.ts:373-396 | after a failure a table has its rows back if and only if the migration had not looked at it, or all rows from the first one refused on are unchanged |
| RowRecovery.RowsComeBackExactly | apps/api/src/migrations/MigrationService.ts:373-396 | on a storage that answers, they come back if and only if a dry run of the operations, up to the refused one, leaves a table that accepts its starting rows again up to those left unchanged |
| RowRecovery.GentleRowsComeBack | apps/api/src/migrations/MigrationService.ts:373-396 | the rows of a live table, valid and with unique columns that print apart, come back after a failure at any call if no operation adds, renames into or retypes one of its unique columns |
| RowRecovery.SwapLosesRows | apps/api/src/migrations/MigrationService.ts:390-393 | two renamings that move a text from one unique column to another, then a refused operation: the old schema is saved and no row is put back |
| IndexRecovery.SuccessRepairs | apps/api/src/migrations/MigrationService.ts:127-133 | after a success the index of a table is as it should be if and only if an operation on it did more than replace its policies, or it was so before |
| IndexRecovery.PutRight | apps/api/src/database/QueryEngine.ts:226-252 | putting rows back leaves an exact index if and only if every row that is not indexed anew has the right entries already |
| IndexRecovery.IndexComesBack | apps/api/src/migrations/MigrationService.ts:380-393 | after any failure the index of a live table the migration had looked at is as it should be if and only if putting its rows back puts it right |
| IndexRecovery.AllBackPutRight | apps/api/src/database/QueryEngine.ts:304-320 | when all rows are accepted, that is so if and only if no row without an indexed value has an entry |
| IndexRecovery.GentleIndexComesBack | apps/api/src/migrations/MigrationService.ts:380-393 | it is so after a migration that brings no value into a unique column when every row has an indexed value under the schema saved again; in general, when every row with an entry where the migration stopped has one |
| IndexRecovery.UnlookedIndexStays | apps/api/src/migrations/MigrationService.ts:328-370 | a live table the migration had not looked at keeps its index, which is right if and only if the schema left to it asks for the same entries; only an interrupted rebuild may have emptied or filled it |
| SecondFailures.UndisturbedIsExecuted | apps/api/src/migrations/MigrationService.ts:150-153 | when no call of the way back throws, what is left is what the theorems on failures are about |
| SecondFailures.NothingIsRestored | apps/api/src/migrations/MigrationService.ts:380-383 | when the channel maps cannot be saved, that error is answered and the project stays as the migration had left it; tables it does not name are untouched |
| SecondFailures.LapseCostsOneTable | apps/api/src/migrations/MigrationService.ts:385-403 | when any other call throws, all other tables are as if it had not; the table lacks the rows from some point on, or keeps the definition or the index of the moment the migration stopped, or its channel is left behind |
| SecondFailures.UnannouncedRemovalSticks | apps/api/src/migrations/MigrationService.ts:402 | when the removal of a table the migration made cannot be announced, the table has no channel, but still a schema exactly if it had one where the migration stopped; by `SchemaRecovery.StuckStays` no migration takes it away |
| Presence.RefNamesSocket | apps/api/src/realtime/RealtimeService.ts:202-207 | a meta's reference tells the socket it is of |
| Presence.ChannelOfRoomName | apps/api/src/realtime/RealtimeService.ts:442-445 | the channel read off a room's name is the right one if and only if the project's id has no colon |
| Presence.UpsertAgrees | apps/api/src/realtime/RealtimeService.ts:381-399 | whoever saw the room before and applies the diff of an upsert sees the room after it |
| Presence.DepartureAgrees | apps/api/src/realtime/RealtimeService.ts:401-434 | the same for the diff that tells of a departure |
| PresenceHub.ChangeAgrees | apps/api/src/realtime/RealtimeService.ts:209-214 | a diff sent to the members of a room keeps every member's queued view of every channel in agreement |
| PresenceHub.DisconnectedIsOut | apps/api/src/realtime/RealtimeService.ts:436-448 | after the handler of `disconnect` no room holds a meta of the socket |
| PresenceRuns.StepKeeps | apps/api/src/realtime/RealtimeService.ts:155-215 | every event, server handler, delivery or client subscription, keeps all of: records match memberships, members hold metas they can be cleaned of, synced views agree |
| PresenceRuns.SyncedClientsSeeTheRoom | apps/sdk/src/RealtimeClient.ts:113-137 | in every run, the view of a client that has joined, with its queued packets applied, equals the server's room |
| PresenceRuns.OnlyConnectedAreIn | apps/api/src/realtime/RealtimeService.ts:251-254 | in every run, only connected sockets have metas in rooms |
| PresenceHistory.RoomsTellThePresent | apps/api/src/realtime/RealtimeService.ts:155-254 | in every run the room `project:P:presence:C` holds, for each socket and user, what the socket last tracked there, with the reference `socket:channel:time`, and nothing once it has left the channel or disconnected |
| PresenceHistory.ClientsSeeThePresent | apps/sdk/src/RealtimeClient.ts:113-137 | a synced client that has received everything sees exactly these metas of the sockets of its project |
| PresenceHistory.JoinedIsSynced | apps/api/src/realtime/RealtimeService.ts:155-170 | a client that joins while connected is synced until it leaves, subscribes to a channel it does not hold, or disconnects |
| PresenceHistory.ClientsHoldTheSubscribed | apps/sdk/src/RealtimeClient.ts:347-360 | in every run a client holds just the channels it has subscribed to, or brought along, and not given up |
| RealtimeServer.RealtimeService.OnJoinPresence | apps/api/src/realtime/RealtimeService.ts:155-170 | the socket becomes a member and gets the room as a snapshot; a refused token changes nothing |
| RealtimeServer.RealtimeService.OnPresence | apps/api/src/realtime/RealtimeService.ts:185-215 | the socket's meta under the key is replaced and all members get the difference |
| RealtimeServer.RealtimeService.OnLeavePresence | apps/api/src/realtime/RealtimeService.ts:172-183 | the departure is told to the members, the leaving socket included, and the membership ends |
| RealtimeServer.RealtimeService.OnDisconnect | apps/api/src/realtime/RealtimeService.ts:251-254 | the socket is removed from every recorded room in turn, each departure told on the channel read off the room's name |
| RealtimeServer.RealtimeService.UpsertPresence | apps/api/src/realtime/RealtimeService.ts:381-399 | the nested maps gain or replace one meta; the difference names it, and the one it replaces |
| RealtimeServer.RealtimeService.CleanupSocketPresence | apps/api/src/realtime/RealtimeService.ts:436-448 | every recorded room is left in turn, and the record goes |
| RealtimeServer.RealtimeService.RemoveSocketPresenceFromRoom | apps/api/src/realtime/RealtimeService.ts:401-434 | all metas of the socket go, keys and rooms left empty go, and one diff lists the leaves if there are any |
| RealtimeClients.ApplyPresenceDiff | apps/sdk/src/RealtimeClient.ts:508-536 | the two loops compute the diff on sets: leaves by reference, keys left empty deleted, joins appended |
| RealtimeClients.RealtimeClient.OnPresenceDiff | apps/sdk/src/RealtimeClient.ts:123-137 | only the room of the packet's channel changes, by the diff |
| RealtimeClients.RealtimeClient.OnPresenceState | apps/sdk/src/RealtimeClient.ts:113-121 | only the room of the packet's channel changes, to the snapshot |
| RealtimeClients.RealtimeClient.SubscribeToPresence | apps/sdk/src/RealtimeClient.ts:347-360 | a new room starts empty, one that is there stays as it is |
| Decimals.ShownDecimal | apps/api/src/oql/OqlParser.ts:331-336 | every normal decimal has a literal the tokenizer takes whole and that is read back as the same number |
| OqlTokens.ReadString | apps/api/src/oql/OqlParser.ts:304-329 | the loop finds the value and the end of a string literal with escapes, or that it is not terminated |
| OqlTokens.Tokenize | apps/api/src/oql/OqlParser.ts:262-357 | the loop ends with all tokens of the text or its first error; `OqlTokens.TokensOfJoin` says what they mean |
| OqlTokens.LexLiteral | apps/api/src/oql/OqlParser.ts:304-329 | any string, whatever quotes and backslashes it holds, comes back from its escaped form as one token |
| OqlTokens.TokensOfJoin | apps/api/src/oql/OqlParser.ts:262-357 | any list of tokens written out with blanks between them tokenizes to itself |
| OqlTokens.RetokenizeJoined | apps/api/src/oql/OqlParser.ts:262-357 | the tokens of any text, written out anew, tokenize to the same list |
| OqlParser.PrintParse | apps/api/src/oql/OqlParser.ts:253-517 | parsing the precedence-aware printing of any condition tree gives the tree back with no tokens left |
| OqlParser.PrintInjective | apps/api/src/oql/OqlParser.ts:253-517 | two conditions with the same text are the same |
| OqlParser.ParsePrint | apps/api/src/oql/OqlParser.ts:253-517 | every accepted text has a normal form: printing what was parsed parses to the same condition |
| OqlParser.ConnectiveAsComparison | apps/api/src/oql/OqlParser.ts:411-425 | two names with `and` between them parse as a comparison |
| OqlText.TextParses | apps/api/src/oql/OqlParser.ts:253-517 | the text of every condition, put together from literal words, symbols, numerals and quoted strings, is parsed as that condition |
| OqlText.ParsedIsPlain | apps/api/src/oql/OqlParser.ts:253-517 | the parser answers no other conditions: references of one or two names that are no words of the language, numbers without superfluous zeros |
| OqlText.AnyCasing | apps/api/src/oql/OqlParser.ts:338-350 | each of the nine words is read as the same token in any mixture of small and capital letters |
| OqlText.OtherNames | apps/api/src/oql/OqlParser.ts:338-350 | any other name is read as itself, up to the first character that cannot continue it |
| OqlText.SymbolsAreRead | apps/api/src/oql/OqlParser.ts:273-278 | the six symbols are read without blanks around them, the longer one of two that fit |
| OqlText.PunctuationIsRead | apps/api/src/oql/OqlParser.ts:280-302 | parentheses, brackets, comma and star are read whatever follows |
| OqlText.StringsAreRead | apps/api/src/oql/OqlParser.ts:304-329 | a text between quotation marks of either kind is read with the backslashes before characters left out |
| OqlText.StringsMustEnd | apps/api/src/oql/OqlParser.ts:319-321 | one without its closing mark is an error |
| OqlText.NumbersAreRead | apps/api/src/oql/OqlParser.ts:331-336 | a decimal is read as its number, up to the first character that cannot continue it |
| OqlText.ZerosDoNotCount | apps/api/src/oql/OqlParser.ts:442-447 | zeros at the end of a fraction and a sign before zero do not change the number |
| OqlText.BlankSkipped | apps/api/src/oql/OqlParser.ts:268-271 | every kind of blank may stand before a token |
| OqlText.NothingElseIsRead | apps/api/src/oql/OqlParser.ts:353-353 | a character that nothing above begins with is an error that names it |
| OqlParser.ConditionParser.ParseOrLevel | apps/api/src/oql/OqlParser.ts:372-386 | the loop parses a left-associated chain of `or`, ending on every token list, at the position the grammar says |
| OqlParser.ConditionParser.ParseAndLevel | apps/api/src/oql/OqlParser.ts:388-402 | the same for `and` |
| OqlParser.ConditionParser.ParsePrimary | apps/api/src/oql/OqlParser.ts:404-425 | a parenthesised condition or a comparison, or the first error |
| OqlParser.ConditionParser.ParseOperand | apps/api/src/oql/OqlParser.ts:427-490 | a reference, a scalar or an array of scalars, or the first error |
| OqlParser.ParseText | apps/api/src/oql/OqlParser.ts:253-260 | the whole text is consumed or refused |
| FileStorage.SplitBuffer | packages/telegram/src/TelegramStorageProvider.ts:729-735 | with a fractional chunk size of at least 1, the chunks are not empty, follow each other without gap or overlap, join to the data, and are a chunk long to within a byte |
| FileStorage.BufferDone | apps/api/src/storage/StorageService.ts:121-123 | what has been flushed, with the rest, is the one partition of the bytes into parts of 64 MiB |
| FileStorage.PartsAre | apps/api/src/storage/StorageService.ts:15-15 | the parts of a file that is not empty are 64 MiB each but for the last one |
| FileStorage.FittedMeans | apps/api/src/storage/StorageService.ts:442-442 | joined parts are cut off at the size of the reference, or filled up with zeros |
| FileStorage.StorageService.UploadFile | packages/telegram/src/TelegramStorageProvider.ts:251-311 | the reference downloads to the data, as one message up to 1.9 GiB and as chunks above it, each shorter than 1.9 GiB and a byte, and no other message changes |
| FileStorage.StorageService.DownloadFile | packages/telegram/src/TelegramStorageProvider.ts:314-339 | the message, or the chunks joined, or an error when one is missing |
| FileStorage.StorageService.UploadStream | apps/api/src/storage/StorageService.ts:69-143 | however the stream is cut, the stored parts are those of its bytes alone, all but the last exactly 64 MiB, and the object downloads to the bytes |
| FileStorage.StorageService.Download | apps/api/src/storage/StorageService.ts:432-443 | the parts in order, joined |
| FileStorage.StorageService.DeleteObject | apps/api/src/storage/StorageService.ts:164-177 | exactly the messages an upload added are taken away |
| Uploads.UploadSession.AppendChunk | apps/api/src/storage/UploadSessionService.ts:106-131 | a chunk is taken only at the end of what was received and only while the session is open; a refused one changes nothing |
| Uploads.WrittenAtMeans | apps/api/src/storage/UploadSessionService.ts:119-124 | writing a chunk changes the bytes from its offset on and fills a gap with zeros |
| Uploads.UploadSession.CompleteSession | apps/api/src/storage/UploadSessionService.ts:133-153 | succeeds if and only if the session is open, has a file, and holds the announced size; then the object downloads to the bytes received |
| Uploads.RetriesKeepPrefix | apps/api/src/storage/UploadSessionService.ts:106-131 | repeated, reordered and differently cut requests for one blob leave a prefix of it |
| Uploads.UploadResumable | apps/sdk/src/StorageClient.ts:214-238 | for every chunk size and read-stream chunking the download is the blob, if and only if the blob is not empty |
| Base32.AlphabetDigits | apps/api/src/auth/totp.ts:3 | each digit's character is the one the alphabet holds at that place, and is read back as that digit |
| Base32.ToBase32 | apps/api/src/auth/totp.ts:41-61 | the text is the encoding of section 6 of RFC 4648 without padding: the bits of the bytes, filled up with zeros to whole digits |
| Base32.FromBase32 | apps/api/src/auth/totp.ts:63-85 | the bytes are the whole bytes among the bits of the digits; other characters are skipped |
| Base32.ShiftIn | apps/api/src/auth/totp.ts:46-49 | what the 32-bit accumulator loses is never pending |
| Base32.DecodeEncode | apps/api/src/auth/totp.ts:41-85 | decoding undoes encoding for every byte sequence |
| Base32.EncodeDecode | apps/api/src/auth/totp.ts:41-85 | encoding undoes decoding on exactly the canonical texts |
| Base32Text.EncodedDigit | apps/api/src/auth/totp.ts:41-61 | bit by bit: each character is the letter or digit of the next five bits of the bytes, zeros behind the last |
| Base32Text.DecodedByte | apps/api/src/auth/totp.ts:63-85 | bit by bit: each byte has the next eight bits of the digits in the text |
| Base32Text.DigitsRead | apps/api/src/auth/totp.ts:63-74 | small letters count as capitals, and what is no digit, padding included, is left out |
| Cron.AddPart | apps/api/src/functions/cron.ts:51-101 | the loops add exactly the values the part allows within the bounds |
| Cron.ParseCronExpression | apps/api/src/functions/cron.ts:42-49 | five fields as sets, or the first error in order |
| Cron.FieldsAreFields | apps/api/src/functions/cron.ts:51-107 | every accepted field allows something, and nothing outside its bounds |
| CronText.StarMeans | apps/api/src/functions/cron.ts:56-61 | `*` allows every value within the bounds |
| CronText.NumberMeans | apps/api/src/functions/cron.ts:92-98 | a number allows itself, or is out of bounds |
| CronText.NumeralWorth | apps/api/src/functions/cron.ts:92-98 | the numeral of a number is worth that number |
| CronText.SignedMeans | apps/api/src/functions/cron.ts:92-98 | the same for a number with a sign |
| CronText.NothingMeansZero | apps/api/src/functions/cron.ts:92-98 | an empty part counts as 0 |
| CronText.RangeMeans | apps/api/src/functions/cron.ts:76-90 | `a-b` allows exactly the values from `a` to `b`; an end outside the bounds, or `b` below `a`, is the error |
| CronText.StepMeans | apps/api/src/functions/cron.ts:63-74 | `*/n` allows exactly the values within the bounds at a multiple of `n` from the lower one; `*/0` is an error |
| CronText.StarElsewhere | apps/api/src/functions/cron.ts:92-95 | a part with a star or a slash anywhere else is an error |
| CronText.CommaMeans | apps/api/src/functions/cron.ts:51-101 | parts joined by commas allow the union of what they allow, or the first error |
| CronText.ExpressionMeans | apps/api/src/functions/cron.ts:42-49 | an expression of five fields, with any blanks between and around them, stands for their sets under the bounds 0-59, 0-23, 1-31, 1-12 and 0-6, or for the error of the first field that has one; any other number of fields is an error |
| CronText.MatchMeans | apps/api/src/functions/cron.ts:13-24 | a minute matches if and only if the minute, hour, day, month and weekday of its local time are in the five fields |
| CronText.MonthDecides | apps/api/src/functions/cron.ts:13-24 | with `*` elsewhere the month alone decides |
| CronText.DayDecides | apps/api/src/functions/cron.ts:13-24 | with `*` elsewhere the day of the month alone decides |
| Cron.NextCronMatch | apps/api/src/functions/cron.ts:26-40 | the least matching minute strictly after the given moment; nothing exactly when none of the next 43200 minutes matches |
| Cron.EveryDayWithinWeek | apps/api/src/functions/cron.ts:13-40 | with `*` for day and month a match lies within 10080 minutes |
| Cron.FirstOfMonthMissed | apps/api/src/functions/cron.ts:32-39 | for midnight of the first, asked at the first midnight of a 31-day month, the search finds nothing |

## Left out

- Real Telegram, Redis, SQLite, socket.io and files: in-memory state with atomic operations. The project lock, presence
  and migrations are the exceptions, where steps interleave or any single call may fail.
- The `FLOOD_WAIT` retry, which runs a half-finished send again from its start.
- Paging on top of `TelegramStorageProvider.getMessages`, which drops part messages from a page.
- What `JSON.parse` makes of a chain header is a parameter that reads back the headers the provider writes; totals that
  are not natural numbers, parts without an index, and chain ids that need escapes are not modelled.
- Rows are stored as values: `JSON.stringify` and `JSON.parse` of rows are the identity, numbers are integers.
- `orderBy`, `offset` and projection of a select, and what the ordering and `like` filters compare
  (`Rows.Operator.Other` stands for any test).
- Encrypted payloads: encrypted columns are only kept out of the index.
- Row-level security: allowed rows are a predicate, policies are texts with a given rewriting.
- Which of several matching rows an upsert takes: any of them here, and any row of the table when it has no usable
  conflict column.
- The clock, random ids, coercions of column types and generated column values are parameters.
- A presence handler that resumes after its socket has disconnected.
- Presence views are sets of metas per key; the order of metas in a list is not modelled, nor that a list has no
  doubles.
- Full OQL queries: splitting on `|` and joining lines happen before strings are recognised.
- Numbers of OQL are exact decimals; rounding to doubles and negative zero are not modelled.
- Cron numbers are written in decimal; hexadecimal, exponents and a decimal point are refused here. Local time has a
  fixed offset, and the calendar is any pair of functions for day and month.
- Ids of part messages are never given to edit or delete: callers only hold ids that a send returned.
- Zero-byte files and crashes between writing a chunk and writing its session.
- The storage rule expressions, routes, the dashboard, the command line and backups.
- ChainStore.TelegramStorageProvider.EditMessage: requires content that the chain code cannot mistake for its own
  messages and a chain id not in use; what other content does is said of sends only, in `ChainRuns.SendAndGet` and
  `ChainRuns.SendAndDeleteEarlier`.
- ChainRuns.Run: requires the same of all contents, as callers store JSON and draw random chain ids.
- MigrationService.MigrationService.RestoreProjectState: at most one of its calls throws.
- ProjectAccounts.SeriesKeepsAccounts: the way back of a failed migration meets no failing call; what one costs is said by
  `SecondFailures.LapseCostsOneTable`.
- QueryEngine.QueryEngine.DeleteRows: a missing message stops the deletion, as in the mock storage; the Telegram client
  passes over it. The transactions only delete rows that are there, or one row at a time.
- MigrationSteps.RowWritten: the reads of the uniqueness check and the edit count as one call that may throw.
- Rows.ShowInjective: numbers are integers.
- QueryEngine.QueryEngine.Select: `orderBy`, `offset` and projection are not modelled.
- FileStorage.SplitBuffer: positions are exact reals; the rounding of the source's doubles is not modelled.
- ProjectLock.MutualExclusion: requires that each holder finishes its release before the key expires, which
  `ProjectLock.ExclusionIsTimeliness` shows to be necessary.
- Rollback.RollbackRestores: requires that no row the transaction wrote, and none that misses a default, is deleted by it,
  that an update assigning a unique column has at most one target, and that no update gives a row its first indexed value;
  the lemmas beside it show what happens without each.
- TransactionRules.SafeTransactionRestores: its conditions are sufficient, not necessary.
- FileStorage.StorageService.DeleteObject: the manifest message in the index channel is not modelled.
- Uploads.UploadSession.CompleteSession: a finalising step that fails in storage is not modelled.
- Base32.FromBase32: only ASCII letters are upper-cased; JavaScript also maps `ı` to `I` and `ſ` to `S`.
- Cron.ParseCronExpression: numbers are plain decimals.
