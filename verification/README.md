# Nitro Sync, modelled and proved

Nitro Sync is an offline-first sync client with a durable mutation queue, and a small versioned
server that serves as its fixture. This project models both as Dafny values, objects and step
systems, and proves that they compose: what the client shows, what it stores and what it sends
agree with what the server has committed, over every run with lost, late and repeated messages.

## How the project is laid out

| files | what they hold |
|---|---|
| `Json`, `Strings`, `Records` | JSON values, key order, decimal text, records, mutations, tombstones |
| `FieldMerge`, `Merge`, `MergeLaws`, `MergePicks`, `MergeRepeats` | `src/merge.ts`: field merge, conflict resolution, the merge of pulled records, its laws, which pulled record decides, and when merging twice is merging once |
| `JsonText`, `StableText`, `Wire`, `NativeText` | printing and parsing of JSON, the fixture's canonical text and fingerprint, the hand-written JSON of the native queue |
| `StateMachine`, `Settlement` | the declared life cycle of a queued mutation, and what a response decides |
| `Store`, `Storage`, `StoreLaws`, `Backoff`, `Remap` | the durable queue and record tables: each statement as a map update, the store as a class, last-write-wins rows, retry delays, renaming of ids |
| `Server`, `ServerLaws`, `Replies` | the fixture server as a class, what every request keeps true of it, and what each reply means |
| `Client`, `LocalWrites`, `ClientLaws`, `PullLaws`, `IdMaps` | one table of a run as a function, what a local write does, what a response protects, what it stores, and responses that also rename records |
| `Runs`, `Rounds`, `Verdicts`, `Retries` | a whole run over all tables, what it asks for each, what it decides for each claimed row, and the retry delays over a series of runs |
| `Provider`, `Workers`, `Drain` | the provider as a class that refines the run, the interleavings of its workers, dependency order and progress |
| `World`, `Restarts`, `ExactlyOnce`, `LogFold`, `Convergence`, `Divergence` | one client and the server in a faulty network, step by step, what a crash leaves, the two main theorems, and a run that the second excludes |

Functions that compute a new state (`Handle`, `Process`, `Run`, `MergeTable`, ...) are the
specifications of the methods that update state in place, and the theorems are about them.

The three results that need everything else:

* `ExactlyOnce.ExactlyOnceEffect`: over every run with crashes (also in the middle of a settlement),
  lost responses, late and repeated requests, dropped acknowledgements, rejections, backoff and
  re-claims, a mutation changes the server's log at most once, by its payload laid over the record there was,
  leaves the queue by acknowledgement only after it did, and otherwise stays queued as it was written;
  no reply is a conflict.
* `Convergence.ViewConverges`: in one session without local deletions, under last-write-wins or
  server-wins, with rejections, losses and repetitions, the visible table is the replay of the server's
  log up to the client's cursor, except on records with a queued edit that is not in that part of the
  log. What it excludes is an answer that passes a committed mutation without acknowledging it:
  `Convergence.DeliveredExactly` says exactly for which records such an answer breaks this, and
  `Divergence.DroppedAcknowledgementDiverges` is a run that ends with the wrong table for good.
* `Workers.EveryScheduleIsSequential` with `Runs.RunSettles`: whatever the interleaving of the table
  workers, a run ends where the tables one by one would have ended it, and every claimed row ends in
  the one state that the answers decide.

## Model

| member | source | states |
|---|---|---|
| `FieldMerge.MergeJsonValue` | src/merge.ts:45-57 | the loop over the remote fields computes the field merge, whatever the order of the keys |
| `FieldMerge.MergeEntries` | src/merge.ts:49-56 | its inner loop, with recursive merges of the common keys |
| `FieldMerge.MergeAtPath` | src/merge.ts:45-57 | at every path the result is the remote value, except where the remote runs off the end of an object: there the local value stays |
| `FieldMerge.MergeIdempotent` | src/merge.ts:45-57 | merging a value with itself changes nothing |
| `FieldMerge.MergeAbsorbs` | src/merge.ts:45-57 | merging the same remote value a second time changes nothing |
| `FieldMerge.MergeAssociatesIff` | src/merge.ts:45-57 | the two groupings of three field merges agree if and only if `Associates`, a condition on the three values that follows their common keys |
| `FieldMerge.MergeNotAssociative` | src/merge.ts:45-57 | three values on which it fails |
| `Merge.MergePulledRecords` | src/merge.ts:90-140 | the immutable-id error is never thrown, ids are unique in the result, the result is the fold of the pulled records over the surviving local ones, and it lists them as the ids first came: the surviving local ones, then the pulled visible ones |
| `Merge.KeepLocal` | src/merge.ts:105-117 | the first loop keeps exactly the protected or not hidden local records, in insertion order |
| `Merge.FirstSeenInOrder` | src/merge.ts:105-140 | of two ids the one that came first is listed first |
| `Merge.KeptIsPruned` | src/merge.ts:105-117 | on a list with unique ids this is a filter of the table |
| `MergeLaws.FieldMergeStamps` | src/merge.ts:29-57 | which side's `updatedAt` or `updated_at` gives the timestamp of a field merge |
| `MergeLaws.FieldMergeFold` | src/merge.ts:90-140 | after any number of field merges a record is shown if and only if the pruned local one or a visible pulled one is there, and each numeric field is that of the last of them to bring it |
| `MergeLaws.FoldedStamp` | src/merge.ts:29-57 | its timestamp is the last `updatedAt` brought, else the last `updated_at`, else zero |
| `MergeLaws.ResolveStaysVisible` | src/merge.ts:59-88 | of two records above a tombstone the resolved one is above it, if and only if it is not one guarded case of field merge with a negative tombstone |
| `MergeLaws.NoResurrection` | src/merge.ts:90-140 | an unprotected id with a tombstone is absent or shows a record strictly above it, for all four strategies, if and only if the field merges of the visible records do not fall to it: the last stamp they bring is a matter of the inputs alone |
| `MergeLaws.NonNegativeTombstonesHold` | src/merge.ts:90-140 | they never fall to a tombstone at or after time zero |
| `MergeLaws.NegativeTombstoneResurrects` | src/merge.ts:105-137 | the failing case happens: a field merge brings a record back under a negative tombstone |
| `MergeLaws.GuardedUntouched` | src/merge.ts:97-122 | an id with an unacknowledged mutation keeps its local record exactly |
| `MergeLaws.LastWriteWinsBatches` | src/merge.ts:77-140 | merging two responses in turn equals merging both record lists once with the later tombstones, if these dominate the earlier |
| `MergePicks.LastWriteWinsPicks` | src/merge.ts:77-86 | under last-write-wins any number of pulled records leaves the last of the newest visible ones, unless the local record is strictly newer |
| `MergePicks.FoldAtPath` | src/merge.ts:45-57 | any number of field merges leaves at every path what the last visible record to say something there says, else what the local one says |
| `MergePicks.FoldSpares` | src/merge.ts:59-140 | for each of the four strategies, the pulled records leave a shown record as it is if and only if the one that decides is absent, beaten or the same, under field merge path by path |
| `MergePicks.FoldMakes` | src/merge.ts:59-140 | and from nothing they make exactly a given record if and only if the one that decides is that record |
| `MergeRepeats.RedeliveryIsIdempotent` | src/merge.ts:90-140 | for all four strategies, delivering a response twice equals delivering it once if and only if for every id no field merge falls to its tombstone, or visible pulled records say something wherever the local one does; with tombstones at or after time zero it always does |
| `MergeRepeats.RedeliveryAt` | src/merge.ts:90-140 | the same, exactly, for one id |
| `MergeRepeats.RedeliveryCanDiffer` | src/merge.ts:90-140 | an input on which the second delivery changes the record |
| `MergeRepeats.DoesNotBatch` | src/merge.ts:69-75 | under each strategy but last-write-wins merging two responses in turn can differ from merging both lists at once: an input for each |
| `MergeRepeats.ServerWinsBatchesIff` | src/merge.ts:69-140 | under server-wins they agree on an id if and only if it is guarded, or the second response shows a record of it, or the first shows none, or the last one the first shows outlives the later tombstones, or nothing is left to show |
| `MergeRepeats.ClientWinsBatchesIff` | src/merge.ts:71-140 | the exact condition under client-wins, on the first visible records |
| `MergeRepeats.MergeFieldsBatchesIff` | src/merge.ts:45-140 | the exact condition under field merge, path by path |
| `MergeRepeats.BatchesIff` | src/merge.ts:59-140 | for each strategy the whole tables are equal if and only if the condition of the strategy holds of every id |
| `JsonText.ParseCharsQuoted` | cpp/NitroSync.cpp:65-91 | a JSON string decoder (section 7 of RFC 8259) undoes the quoting of every string, also in front of further text |
| `JsonText.ParseUndoesPrint` | tools/sync-test-server.cjs:11-21 | parsing undoes printing for every well-formed value |
| `StableText.StableIsCanonical` | tools/sync-test-server.cjs:11-21 | the stable text is the ordinary text of the value with sorted keys at every depth |
| `StableText.StableTextDecides` | tools/sync-test-server.cjs:11-21 | two values get the same stable text if and only if they are equal up to key order at every depth |
| `Wire.FingerprintDecides` | tools/sync-test-server.cjs:119-127 | two mutations get the same fingerprint if and only if all their fields agree |
| `NativeText.QuoteJson` | cpp/NitroSync.cpp:65-91 | the byte loop prints the quoted string |
| `NativeText.SerializeRows` | cpp/NitroSync.cpp:154-184 | one text per claimed row, in order, by concatenation |
| `NativeText.RowTextPrints` | cpp/NitroSync.cpp:158-164 | the concatenation is the JSON text of the row as an object |
| `NativeText.ToDoubleExact` | cpp/NitroSync.cpp:162 | an integer survives being read as a JavaScript number if and only if the spacing of doubles divides it, so all safe integers do |
| `NativeText.FirstUnsafeInteger` | cpp/NitroSync.cpp:162 | the first integer that does not |
| `NativeText.NativeRowRoundTrip` | src/merge.ts:142-172 | parsing a native row text recovers every field, including the nested payload and dependsOn texts |
| `NativeText.RowIsRead` | src/merge.ts:142-172 | a row is refused exactly if a name is no string, its time no integer, its payload missing, or a nested text no JSON; its schema version is one unless a positive safe integer is given, and it depends on nothing unless it says so |
| `StateMachine.RetryableMeansClaimable` | src/stateMachine.ts:86-88 | the retryable states are exactly those a claim takes to SYNCING |
| `StateMachine.EventsMean` | src/stateMachine.ts:3-84 | where each event leads from every state |
| `StateMachine.SettledIsFinal` | src/stateMachine.ts:3-84 | after any events ACKED stays ACKED, REJECTED can only become ACKED, and only an acknowledgement leads to ACKED |
| `Settlement.PartitionIsExact` | src/mutationSettlement.ts:16-41 | every sent mutation falls into exactly one part; an acknowledgement beats a rejection; only `retryable: false` rejects for good |
| `Settlement.SettlingFollowsTheStateMachine` | src/mutationSettlement.ts:43-65 | a settled row takes the step of the life cycle that its part names |
| `Settlement.UserRetryIsNoTransition` | src/storage.ts:418-423 | the user's retry leaves REJECTED for PENDING, which the declared life cycle never does |
| `Storage.SyncStorage.RecoverStuckMutations` | src/storage.ts:256 | every SYNCING row becomes PENDING, every other row and everything else stays |
| `Storage.SyncStorage.ApplyMutation` | src/storage.ts:291-333 | one transaction: a new queue row, waiting and claimable at once, unless the id exists, which then stays as it is; and the newer write on the record row |
| `Storage.SyncStorage.ListPendingMutations` | src/storage.ts:334-371 | the claim is a longest prefix of the eligible rows in timestamp order, and exactly these become SYNCING |
| `Storage.SyncStorage.SelectEligible` | src/storage.ts:337-345 | the selection behind it |
| `Rounds.ClaimMeans` | src/storage.ts:337-345 | a claim takes PENDING and FAILED rows of the wanted table whose time has come, by time, and leaves one out only if it is full of no newer ones |
| `Storage.SyncStorage.MarkMutationFailed` | src/storage.ts:402-411 | FAILED, the next retry time from the old count, the count raised |
| `Storage.SyncStorage.MarkMutationRejected` | src/storage.ts:412-417 | REJECTED with code and message |
| `Storage.SyncStorage.MarkMutationPending` | src/storage.ts:430-435 | PENDING and claimable at once |
| `Storage.SyncStorage.RetryRejectedMutation` | src/storage.ts:418-423 | a REJECTED row becomes the row a first enqueue of its mutation makes, claimable at once; a row in any other state and every other row stay |
| `Storage.SyncStorage.DiscardRejectedMutation` | src/storage.ts:424-429 | a REJECTED row is gone; a row in any other state and every other row stay |
| `Storage.SyncStorage.RemoveMutation` | src/storage.ts:439-441 | the row is gone, all others stay |
| `Storage.SyncStorage.WriteRecord` | src/storage.ts:442-461 | the older of row and write is lost, a deletion keeps the payload there was, no other row changes |
| `Storage.SyncStorage.ClearTombstone` | src/storage.ts:268-273 | only a deleted row up to the given time is removed |
| `Storage.SyncStorage.LoadRecords` | src/storage.ts:258-261 | the live rows, each id once, in the order of their times |
| `Storage.SyncStorage.LoadTombstones` | src/storage.ts:262-267 | the deleted rows with their times, each id once |
| `Storage.SyncStorage.ReplaceTable` | cpp/MutationQueue.cpp:504-550 | if no id comes twice the table holds the given records, live since the given time, and the given tombstones, and nothing else; otherwise it stays as it was |
| `Storage.SyncStorage.RemapRecordId` | cpp/MutationQueue.cpp:469-502 | stored row and queued payloads renamed in one transaction, or nothing when the target id is taken |
| `Storage.SyncStorage.SetServerCursor` | src/storage.ts:513-514 | the cursor of one table |
| `StoreLaws.NewestWriteShows` | src/storage.ts:442-461 | after any writes a reader sees the newest, the last applied of equals, unless the row was newer before |
| `StoreLaws.WritesCommute` | cpp/MutationQueue.cpp:442-467 | two replicas that apply the same writes with distinct times in any order show the same records and tombstones |
| `StoreLaws.ClearedTombstoneWasCovered` | cpp/MutationQueue.cpp:596-606 | clearing never touches a live row or a newer deletion |
| `Backoff.RetryDelayIsCapped` | src/storage.ts:96-107 | the table of delays is 1000 times a power of two, capped at 300000 |
| `Backoff.ClockIsWholeSecond` | src/storage.ts:96-107 | the store's clock is the last whole second |
| `Backoff.BackoffBounds` | src/storage.ts:402-411 | after n failed runs of a row the next retry time is at least the sum of n delays after the first failure and at most 300000 ms after the last |
| `Backoff.EligibleAgain` | src/storage.ts:337-345 | the claim passes the row over until then, and returns it from 300000 ms after its last failure on |
| `Retries.FailingRunMarks` | src/provider.tsx:503-545 | a run that fails a row marks it as `Backoff` assumes: twice for a failed table, else once |
| `Retries.BackoffOverRuns` | src/storage.ts:337-411 | over any series of runs, with whatever else between them, a new row that failed n times is in no claim before the sum of n delays after its first failing run, and is claimable 300000 ms after its last |
| `Remap.LoopIsSimultaneous` | src/provider.tsx:332-346 | with fresh targets the loop of transactions never fails and equals one simultaneous renaming of rows, queue and memory |
| `Remap.EntryOrderIsIrrelevant` | src/provider.tsx:332-346 | the order of the entries does not matter |
| `Remap.RemapKeepsAgreement` | cpp/MutationQueue.cpp:469-502 | memory that equalled the live rows still does |
| `Server.SyncTestServer.GetTable` | tools/sync-test-server.cjs:90-97 | a table is created empty on its first use |
| `Server.SyncTestServer.HandleSync` | tools/sync-test-server.cjs:99-195 | one request, with its early exits, moves the server exactly as `Handle` says |
| `Replies.BadRequestMeans` | tools/sync-test-server.cjs:99-111 | a request is refused if and only if its table has no name, a mutation has no id or another table, or its cursor, else its version, is no safe natural number; then no table and no processed id changes |
| `Replies.AnswerContinues` | tools/sync-test-server.cjs:104-106 | an accepted request pulls from its cursor on, else from its version, else from the beginning |
| `Replies.UnruledIsCommitted` | tools/sync-test-server.cjs:155-179 | a new mutation without a rule adds one entry to its table and none elsewhere, is remembered with its content, and is acknowledged unless a header drops that |
| `Replies.RuledIsRejected` | tools/sync-test-server.cjs:138-153 | a new mutation under a rule, a configured one before that of the headers, is answered with the rule's rejection, changes no table, and is remembered unless the rule lets it be retried |
| `Replies.ResendIsAnsweredAlike` | tools/sync-test-server.cjs:121-136 | a resend gets the same rejection again, or an acknowledgement that settles a dropped one, and changes no table |
| `Replies.OtherContentConflicts` | tools/sync-test-server.cjs:122-127 | an id used again with another content stops the request and changes nothing |
| `Replies.RequestOrderIsLogOrder` | tools/sync-test-server.cjs:117-179 | two new mutations of an answered request that no rule holds up stand in the log in the order of the request |
| `Replies.ConflictKeepsEarlier` | tools/sync-test-server.cjs:117-127 | a conflict keeps what the mutations before it in the request did |
| `Replies.CommitShows` | tools/sync-test-server.cjs:157-173 | after an update the record has every field of it and, of the record before, every field that the update does not mention, and no other but its version; a deletion leaves nothing; no other record changes |
| `ServerLaws.HandleKeeps` | tools/sync-test-server.cjs:99-195 | every request keeps: version is the log length, entry i has version i+1, the records are the replay of the log, every applied id caused exactly one entry, which is its payload laid over the record that the entries before left; logs only grow and processed ids keep their entry |
| `ServerLaws.AnswerMeans` | tools/sync-test-server.cjs:181-195 | for any cursor, the pull is the log behind it cut in two lists, the next cursor is the log length or the larger cursor echoed, acknowledged ids are applied |
| `ServerLaws.ConflictMeans` | tools/sync-test-server.cjs:121-127 | a 409 reply means that an id was used again with another content |
| `ServerLaws.ResendConflictsIffChanged` | tools/sync-test-server.cjs:119-136 | a resend conflicts if and only if a field changed, and never writes again |
| `ServerLaws.AllAcknowledged` | tools/sync-test-server.cjs:117-179 | without test headers, rules or reused ids the whole batch is acknowledged and applied |
| `ServerLaws.AppliedIsAcknowledged` | tools/sync-test-server.cjs:117-179 | unless a header drops it, every sent mutation that is applied is acknowledged, a resent one too |
| `ServerLaws.SinceIsSuffix` | tools/sync-test-server.cjs:181 | the filter by version is a suffix of the log, empty for a cursor beyond it |
| `ServerLaws.PullsCoverTheLog` | tools/sync-test-server.cjs:99-195 | over any series of requests of any clients, refused and conflicting ones too, a client that passes back each cursor receives in its accepted answers every entry from its start on, once and in order |
| `ClientLaws.OutstandingWritesAreProtected` | src/provider.tsx:351-439 | an id with an unacknowledged sent mutation shows nothing if one of these is a deletion, else exactly its old record, in both modes |
| `ClientLaws.OutstandingRowsAreProtected` | src/provider.tsx:421-439 | an incremental pull leaves its stored row alone |
| `ClientLaws.PulledRecordsAreStored` | src/provider.tsx:420-438 | a pulled, unprotected record that stays visible is the live stored row afterwards, also over a tombstone it outlives, if and only if its storing time is not before the old row's; otherwise the old row stays |
| `PullLaws.PulledDeletionIsStored` | src/provider.tsx:433-437 | a pulled, unprotected deletion reaches the store: the row is no older than it, and deleted unless strictly newer |
| `PullLaws.LiveAfterPull` | src/provider.tsx:420-437 | after an incremental pull the live rows of unprotected ids are exactly the pulled ones that are shown and those that were live and newer than every pulled deletion |
| `PullLaws.StoreTimeMeans` | src/provider.tsx:424-430 | a pulled record is stored at the response's time, or over a tombstone at the latest of that, its own time and the instant after the tombstone |
| `ClientLaws.ReplacementCommitsUnlessColliding` | src/provider.tsx:370-419 | a replacement fails if and only if a tombstone meets a record that stays visible; otherwise memory equals the stored live rows and the tombstones are the computed ones |
| `PullLaws.ReplacementStores` | src/provider.tsx:370-419 | a committed replacement stores what it shows, live since the response, the server's tombstones and those of outstanding local deletions, and nothing else |
| `PullLaws.WithDeletionsMeans` | src/provider.tsx:374-391 | each outstanding local deletion joins the tombstones of a reset unless a later one is there |
| `PullLaws.ClearCoveredMeans` | src/provider.tsx:440-455 | an acknowledged deletion takes away the tombstone it covers, and nothing else leaves the rows |
| `PullLaws.FirstRejectionCounts` | src/provider.tsx:440-472 | a refused mutation gets the code and message of the first rejection listed for it |
| `PullLaws.CursorMeans` | src/provider.tsx:473-500 | the cursor goes where the response says, back to the beginning after a reset that says nothing, and else stays |
| `PullLaws.EmptyPullShowsTheSame` | src/provider.tsx:392-439 | records or tombstones take effect on screen and store, a response with neither changes no record |
| `ClientLaws.FailureIsClean` | src/provider.tsx:503-512 | a failed table keeps records, rows and cursor; only its batch becomes FAILED |
| `ClientLaws.TableFailsExactly` | src/provider.tsx:308-512 | a table fails if and only if the transport failed, the schema is too old, or a reset brings a tombstone that collides with a record to stay |
| `ClientLaws.UnopenedWriteShows` | src/provider.tsx:610-675 | a write that starts from an empty list shows what it would show over the stored records if and only if there is nothing else to show |
| `ClientLaws.UnopenedWriteHides` | src/provider.tsx:610-675 | and a case in which it hides a stored record |
| `IdMaps.FreshMapped` | src/provider.tsx:332-512 | with fresh targets, a response with an idMap acts as the rest of it does after one simultaneous renaming |
| `IdMaps.AgreementIsRoomy` | src/provider.tsx:332-346 | where memory shows the stored live rows, every loop that succeeds leaves them so, whatever its targets |
| `IdMaps.RenamingFailsIff` | src/provider.tsx:332-346 | for any entries, the loop fails if and only if one of them would move a stored id to another stored one, the set of ids being followed entry by entry, and then leaves what the entries before made |
| `IdMaps.TakenTargetFails` | src/provider.tsx:332-346 | a taken target id ends the table like any other error: what is shown and the cursor stay, the batch is FAILED once more, and the store is as the entries before it left it |
| `IdMaps.RenamingIsAtomicIff` | README.md:226-228 | for any entries, the renaming is all or nothing if and only if no target is taken or the entries before the first taken one restore the store: every row, followed through them, arrives where a row like it was, and every queued payload keeps its id |
| `IdMaps.OneWayRestoresNothing` | README.md:226-228 | where no target is a source that is the case if and only if those entries name nothing |
| `IdMaps.HalfRenamed` | src/provider.tsx:332-346 | an idMap of which one entry stays and the next fails |
| `IdMaps.RenamedWriteIsUnguarded` | src/provider.tsx:332-439 | an unacknowledged write guards only the old id of a record renamed by the same response: it shows what the guard would have kept if and only if the visible pulled records of the new id spare the renamed record, or make it after a reset or under a tombstone, or none is there after a deletion |
| `IdMaps.RenamedWriteIsLost` | src/provider.tsx:332-439 | under last-write-wins a server record of the new id that is not older takes its place, with the mutation still queued |
| `IdMaps.RenamedWriteCanBeLost` | src/provider.tsx:332-439 | a creation and a response on which this happens |
| `ClientLaws.DeletedStaysDeleted` | src/provider.tsx:360-369 | after an incremental pull an unprotected id shows no record at or below a stored or pulled tombstone, if and only if field merges do not fall to it, which none does at or after time zero |
| `LogFold.PullFollowsLog` | src/merge.ts:105-137 | merging log[c..n], although it arrives as two lists ordered by timestamps only, brings a record in step with the replay of n entries |
| `LogFold.UnionIsLastCut` | src/provider.tsx:361-369 | the union of stored and pulled tombstones holds, for each id, a deletion of the log that is the last one from the cursor on |
| `LogFold.FoldFollowsLog` | tools/sync-test-server.cjs:181-188 | the fold over the pulled records follows the log entry by entry |
| `Runs.FinishOne` | src/provider.tsx:308-512 | processing one more table adds exactly that table's result, whatever was processed before |
| `Runs.EachIsCombined` | src/provider.tsx:308-514 | the tables one by one give the combination of their separate results |
| `Rounds.EveryTableIsAsked` | src/provider.tsx:302-330 | every table of a run is asked once, from its own cursor and with its own mutations, and ends as its answer makes it; every other table stays |
| `Rounds.SentMeans` | src/provider.tsx:284-301 | these are the claimed mutations of the table that no other claimed one blocks |
| `Rounds.SentInTime` | src/provider.tsx:284-301 | what is sent for a table stands in the order of the claim, by time |
| `Rounds.IdleRunReceives` | src/provider.tsx:302-439 | a run with nothing to send still merges what each of its tables is given |
| `Runs.RunSettles` | src/provider.tsx:280-545 | rows outside the claim are untouched, and every claimed row ends in the state that block, concurrency value, table result and answer decide, by any path |
| `Verdicts.RunDecides` | src/provider.tsx:280-545 | what a run leaves of a claimed row, decided by the claim, the concurrency value, the table's failure condition and the answer alone |
| `Verdicts.RetryCountAfterRun` | src/storage.ts:402-411 | the retry count rises by two if the table fails, by one if the answer or the concurrency value fails the mutation, else not at all |
| `Verdicts.TransportErrorCountsTwice` | src/provider.tsx:503-545 | a run after which the count of a new mutation is two |
| `Verdicts.RunFollowsTheStateMachine` | src/stateMachine.ts:3-84 | no claimed row is left SYNCING, and its status follows the events that the verdict names along the declared life cycle |
| `Workers.EveryScheduleIsSequential` | src/tableWorkers.ts:10-28 | under every interleaving each index is processed exactly once, all errors are collected, and the client ends where the tables one by one lead |
| `Workers.RunUnderEverySchedule` | src/provider.tsx:514-545 | so a run that uses the workers ends as `Run` says under every interleaving |
| `Workers.OpenIsBounded` | src/tableWorkers.ts:24-27 | at most min(concurrency, tables) requests are open at any time |
| `Workers.EnoughWorkersStart` | src/tableWorkers.ts:24-27 | exactly that many workers start, each ready for a table |
| `Workers.PoolTerminates` | src/tableWorkers.ts:12-22 | every move leaves less to do, and until all workers have returned some move is possible |
| `Workers.SchedulesAreShort` | src/tableWorkers.ts:12-27 | no interleaving is longer than the work it starts with |
| `Provider.SyncProvider.Mutate` | src/provider.tsx:610-675 | a local write goes to the payload's own id, else the caller's, else the generated one, and does there what `LocalWrites.Performed` says; no other table changes and the written record moves to the end of the list; what was visible stays so if and only if the table was open or held nothing else; a bad schema version changes nothing |
| `LocalWrites.RecordIdIsNamed` | src/merge.ts:19-27 | which record a write goes to |
| `LocalWrites.LocalWritePerforms` | src/provider.tsx:616-661 | the record is shown with every given field, an update keeps the others, a deletion leaves nothing; it is stored, and its mutation waits in the queue as ordered, with the whole record or what the caller gave; nothing else changes |
| `Provider.SyncProvider.RetryRejectedMutation` | src/provider.tsx:586-596 | the user's retry changes the queue alone, and a REJECTED row becomes claimable at once |
| `Provider.SyncProvider.DiscardRejectedMutation` | src/provider.tsx:598-608 | the user's discard takes a REJECTED row out of the queue and changes nothing else |
| `Provider.SyncProvider.CollectTombstones` | src/provider.tsx:360-391 | the tombstones that take part, in both modes |
| `Provider.SyncProvider.PersistPulled` | src/provider.tsx:420-438 | the rows stored by an incremental pull |
| `Provider.SyncProvider.MergeResponse` | src/provider.tsx:392-414 | the records shown after the merge, in the order of the list before, pulled ones that are new after it |
| `Provider.SyncProvider.PullTable` | src/provider.tsx:392-439 | records and rows after a pull, or neither changed after a failed replacement |
| `Provider.SyncProvider.SettleMutations` | src/provider.tsx:440-472 | the three loops of the settlement give the settled queue and clear the covered tombstones |
| `Provider.SyncProvider.FailMutations` | src/mutationSettlement.ts:67-74 | exactly the given mutations become FAILED |
| `Provider.SyncProvider.RemapIds` | src/provider.tsx:332-346 | the idMap loop, for any entries: rows and queue renamed up to the first taken target, memory only if none is; as a table, and with fresh targets as the renaming of `Remap` |
| `Provider.SyncProvider.ProcessTable` | src/provider.tsx:308-512 | one table of a run, with an idMap and with its error paths, is `ProcessMapped`, which without one is `Process` |
| `Provider.SyncProvider.ProcessTables` | src/provider.tsx:514 | the tables of a run, and what is still to be marked |
| `Provider.SyncProvider.HoldBack` | src/provider.tsx:285-298 | blocked mutations become PENDING |
| `Provider.SyncProvider.ListTables` | src/provider.tsx:302-304 | an unscoped run visits every open table and every table of the claim, a scoped one its table |
| `Provider.SyncProvider.Run` | src/provider.tsx:248-545 | a whole run from claim to the last handler is `Run` of the Runs module, on a claim that the query allows and over these tables |
| `Drain.PrerequisitesFirst` | src/provider.tsx:284-301 | with claimable, strictly older prerequisites a mutation is sent only after they left the queue |
| `Drain.SentExactly` | src/provider.tsx:284-301 | when all claimable rows fit in a claim, or the queued prerequisites are strictly older, a mutation is sent if and only if it is claimed and none of its queued prerequisites is claimable; with room every claimable mutation is claimed |
| `Drain.OvertakesExactly` | src/provider.tsx:284-301 | so it overtakes a prerequisite if and only if it is claimed, has queued ones and none of them is claimable |
| `Drain.BackoffIsOvertaken` | src/provider.tsx:285-290 | a queue on which it does: the prerequisite is in backoff |
| `Drain.OldestIsSent` | src/storage.ts:337-365 | the oldest claimed mutation is never blocked, so a run over a drainable queue sends something |
| `Drain.RunDrains` | src/provider.tsx:284-301 | against a server that acknowledges everything each run removes a row and keeps the rest drainable |
| `Drain.QueueDrains` | src/storage.ts:337-365 | n rows drain in at most n runs |
| `World.AnswerTimeCounts` | src/provider.tsx:424-430 | a record of an answer is stored at the time of the answer, later only above a tombstone |
| `World.SendAndReceiveIsRun` | src/provider.tsx:248-545 | sending and receiving in the step system is a run of the Runs module with one table |
| `Restarts.CrashLosesNothing` | src/storage.ts:256 | after a crash, also in the middle of a settlement, nothing is in flight, each queued mutation is still queued unless its acknowledgement was already carried out, and it can be claimed when its time comes unless it is REJECTED |
| `Restarts.RecoveryMeans` | src/storage.ts:256 | every interrupted row takes the declared step and no other row changes |
| `Restarts.RestartFinds` | src/storage.ts:256-261 | the client comes back with the stored live records, its cursor and its whole queue |
| `Restarts.CallsDoAsAsked` | src/provider.tsx:586-675 | a local write is performed as ordered, a retry makes a REJECTED mutation wait as if it were new, a discard removes it, and nothing else changes |
| `Restarts.HalfSettledMeans` | src/provider.tsx:440-472 | of a settlement that was cut short some rows are as the answer decides and the others as they were sent |
| `ExactlyOnce.NeverConflicts` | tools/sync-test-server.cjs:119-127 | in every reachable state no request of the client, first or repeated, is answered with a conflict |
| `ExactlyOnce.ProcessKeepsContent` | src/provider.tsx:440-472 | receiving any outcome removes only acknowledged rows and changes no queued mutation |
| `ExactlyOnce.StepKeepsSafe` | src/provider.tsx:280-545 | every step of the system keeps the safety invariant |
| `ExactlyOnce.ExactlyOnceEffect` | tools/sync-test-server.cjs:117-179 | over every run: at most one log entry per mutation, of its kind and its record, and that is its payload laid over what the log held before, stamped by the server; acknowledged means committed, anything else is still queued as it was written or was discarded by the user |
| `Convergence.ServeFollows` | tools/sync-test-server.cjs:181-195 | the answer in flight continues the log exactly where the client stands |
| `Convergence.DeliverFollows` | src/provider.tsx:351-490 | delivering an answer that passes no committed mutation unacknowledged brings every record in step or leaves it excused by a queued edit |
| `Convergence.StepFollows` | src/provider.tsx:308-490 | every step keeps the convergence invariant |
| `Convergence.ViewConverges` | src/provider.tsx:308-490 | over every gentle run the visible table is the replay of the log up to the cursor, except on records with a queued edit not yet in that part; with an empty queue it is equal, and at the end of the log it is the server's table |
| `Convergence.PlainServerAcknowledges` | tools/sync-test-server.cjs:117-179 | the fixture meets the acknowledgement condition whenever no header or rule rejects or drops |
| `Convergence.PlainServerDropsNothing` | tools/sync-test-server.cjs:117-179 | without a header that drops acknowledgements every accepted answer meets the condition of the gentle runs |
| `Convergence.DeliveredExactly` | src/merge.ts:120-122 | after any accepted answer, with acknowledgements missing or not, a record is in step or excused if and only if `StaysTrue` holds of the state before: no unacknowledged sent mutation is on it, or a queued edit of it is not in the passed log, or the passed log leaves alone what is shown, or neither side has anything to show |
| `Divergence.DroppedAcknowledgementDiverges` | src/merge.ts:120-122 | a run from the empty server that ends idle, with an empty queue and the cursor at the end of the log, and shows another table than the server's |

## Where the code and its promises differ

Each point has an input on which the promise fails and a theorem that says exactly when it holds.

* A field merge can bring a record back under a tombstone with a negative timestamp
  (`MergeLaws.NegativeTombstoneResurrects`). Exactly when, for whole merges and pulls:
  `MergeLaws.NoResurrection`, `ClientLaws.DeletedStaysDeleted`.
* Under such a tombstone a second delivery can change what the first left
  (`MergeRepeats.RedeliveryCanDiffer`). Exactly when: `MergeRepeats.RedeliveryIsIdempotent`.
* Only last-write-wins always batches (`MergeRepeats.DoesNotBatch`); exactly when the others do:
  `MergeRepeats.BatchesIff`.
* Field merge is not associative (`FieldMerge.MergeNotAssociative`); exactly when it is:
  `FieldMerge.MergeAssociatesIff`.
* A table error marks its mutations FAILED in the handler of the table and again in the handler of
  the run, so their retry count rises by two (`Verdicts.TransportErrorCountsTwice`). Exactly when:
  `Verdicts.RetryCountAfterRun` with `ClientLaws.TableFailsExactly`.
* A mutation waits only for prerequisites in the same claimed batch; one in backoff is overtaken
  (`Drain.BackoffIsOvertaken`). Exactly when: `Drain.OvertakesExactly`.
* The user's retry is not a step of the declared state machine: no event leads where it leads from
  REJECTED, the only state it changes (`Settlement.UserRetryIsNoTransition`).
* A delivered answer that drops an acknowledgement moves the cursor past a change that the client
  did not take (`Divergence.DroppedAcknowledgementDiverges`). Exactly when:
  `Convergence.DeliveredExactly`.
* A local write to a table that was never opened shows only that record, not the stored ones
  (`ClientLaws.UnopenedWriteHides`). Exactly when: `ClientLaws.UnopenedWriteShows`,
  `Provider.SyncProvider.Mutate`.
* The documentation calls the renaming by an idMap atomic; a taken target leaves it halfway
  (`IdMaps.HalfRenamed`). Exactly when: `IdMaps.RenamingIsAtomicIff`.
* An unacknowledged write is not protected if the same response renames its record
  (`IdMaps.RenamedWriteCanBeLost`). Exactly when it shows all the same:
  `IdMaps.RenamedWriteIsUnguarded`.

## Left out

- `ExactlyOnce.ExactlyOnceEffect`: takes for granted that a mutation id is never generated twice and that other clients use ids of their own, as `createSyncId` intends.
- `Provider.SyncProvider.Run`: takes the tables one by one, with one clock reading for the whole run and no local write in between; the interleaving of workers is in `Workers`, local writes during a request are steps of `World`.
- `Provider.SyncProvider.ProcessTable`: requires that no record is renamed to an id that the list in memory shows and the store lacks, as the list would then hold an id twice; where memory shows the stored rows this never happens (`IdMaps.AgreementIsRoomy`). Runs, `World` and what is built on them have no idMap.
- `Convergence.ViewConverges`: is about one session without local deletions, because stored rows carry clock times while the fixture's tombstones carry versions, and about local writes that leave the timestamp fields to the server.
- `Drain.SentExactly`: leaves out claims that are full while a prerequisite is not older than the mutation: which of the rows it then holds the query leaves open (`Storage.SyncStorage.ListPendingMutations`).
- Numbers in records are integers; `NaN`, fractions and exponents appear only as text in `JsonText`.
- Strings are sequences of characters: lone surrogates and encodings are not modelled, and the native printer is modelled on characters, since it copies all bytes from 0x80 on.
- SHA-256 is taken as the canonical text itself.
- The client sends `serverVersion` beside `serverCursor`; the fixture answers both with the same number, so one is kept.
- The rejected-mutation listing and the second quoting function of cpp/MutationQueue.cpp: the same escapes as `NativeText.QuoteJson`.
- `normalizeSyncResponse` and `buildSyncRequestPayload`: responses are taken as normalized (a reset has records), requests as well formed.
- Custom conflict resolvers, schema migrations, and database errors other than a duplicate key.
- React state and rendering, timers, HTTP, the metrics and test routes of the fixture, native bindings.
