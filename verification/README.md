# ChainLens in Dafny

ChainLens indexes an Ethereum chain into PostgreSQL. Concurrent workers fetch blocks, a reorder buffer
puts them in ascending order, and one committer either stores a block together with the cursor in one
transaction, or walks back to an ancestor and rolls back. This project models that protocol, the store
it writes, the decoder that feeds it, and three smaller algorithms: the two bounded address searches,
the bounded time-to-live cache, and hexadecimal quantities. `dafny verify dfyconfig.toml` checks it all.

## Layout

| file | content |
|---|---|
| `Domain.dfy` | records of the chain, the store and the RPC node |
| `Transfers.dfy`, `BlockDecoder.dfy`, `LogContents.dfy`, `Events.dfy` | token transfers, block decoding, what each log yields or how it fails, and the events contracts emit |
| `Store.dfy`, `Projections.dfy` | tables as keyed maps, the two write transactions statement by statement, and the two derived tables |
| `Chain.dfy`, `Reorg.dfy`, `Committer.dfy`, `Attempts.dfy` | chains, detection and the ancestor walk, one commit attempt from raw answers, and one batch |
| `Ingest.dfy`, `Outcomes.dfy`, `Durability.dfy` | whole runs with forks, failed calls and crashes: the invariant and its consequences |
| `Replay.dfy`, `Audit.dfy` | the tables of every run as a function of the stored blocks, and its audit trail of rollbacks |
| `Growth.dfy` | how high an indexer can get, and how it stalls |
| `LostAcks.dfy` | transactions that are applied although they report a failure |
| `Witnesses.dfy` | concrete chains, forks and blocks on which the documented promises fail |
| `Sequencer.dfy`, `Pipeline.dfy` | the reorder buffer, and every interleaving of one batch through the bounded channels |
| `Bfs.dfy`, `Searches.dfy` | `find_clusters` and `build_graph` over an abstract neighbour function |
| `Cache.dfy`, `HexQuantity.dfy` | the cache beside a cleaned cache and an unbounded map; quantities of the JSON-RPC interface |

The main results are `Ingest.RunKeepsInvariant`, `Replay.RunReplays`, `Replay.RunHoldsEveryBlock`,
`Growth.CeilingIff`, `Attempts.VerdictExact`, `Audit.RunIsRecorded`, `Reorg.WalkExact`, `Outcomes.HighRollbackStallsForever`, `Outcomes.RollbackLeavesOnlyCanonicalRows`,
`Outcomes.StableBatchStoresTheRest`, `Reorg.WalksAgreeIff`, `LostAcks.CarefulRunsKeepInvariant` with
`LostAcks.HarmfulLossBreaks`, `Pipeline.MaximalRun`, `Pipeline.FullDrainEnds`, `Pipeline.HangPossibleIff`,
`Store.RollbackUndoesCommits`, `Projections.RollbackLeavesSurplus`, `Projections.StoredTransfers`,
`Searches.FindClusters`, `Searches.BuildGraph`, `Cache.CleanupNeverLosesAHit`, `Transfers.BatchRoundTrip`
and `BlockDecoder.DecodeBlockSucceedsIff`.

## What is assumed

- A hash determines its header, a block's parent is one height below it, and no block hash is all zeros.
- The remote node returns the height it was asked for and never changes at heights 0 and 1; above that it
  may fork between any two calls and any call may fail.
- Reading the cursor succeeds. Except in `LostAcks.dfy`, a database transaction that reports a failure was
  not applied.
- In `Replay.dfy` a hash determines the block's transactions and receipts too.
- Block numbers stay below 2^63, transaction and log indices below 2^31. `usize` has 64 bits, and
  arithmetic wraps, as in the release build (Dockerfile:9).
- A batch has at least one worker and channels of capacity at least one.
- Insertion times of the cache strictly increase (`Cache.TiesMayLoseHits` is a run with ties that loses a hit).

Remote answers, clocks and the moment a connection or the process is lost are parameters. A `budget` is
the number of database round trips that still get through.

## Where the code departs from its documents

The model follows the code.

- The ancestor walk compares every remote block with the one cursor hash (src/reorg/detect.rs:51-55); the
  repository's algorithm notes have it compare with the stored row of the same height.
  `Reorg.WalksAgreeIff` says exactly when the two agree, and `Witnesses.WalksDiffer` gives forks on which
  they do not.
- Heights 0 and 1 are never checked (src/reorg/detect.rs:15-25).
- The orphaned hashes are zeros, and the first of them becomes the cursor hash
  (src/pipeline/committer.rs:104-114, src/reorg/rollback.rs:62-73). `Outcomes.CheckerIsExact` shows that
  the repository's own checker then reports a violation, and in no other case; `Witnesses.SomeRunStalls`
  is a run that gets there and never stores a block again.
- A batch starts at the cursor, not one above it (src/main.rs:128, docs/ARCHITECTURE.md:59), and a failed
  commit moves on to the next height (src/main.rs:204-210) instead of halting.
  `Outcomes.StableBatchStoresTheRest`, `Outcomes.StableBatchResets` and `Outcomes.OneRefusalStallsForever`
  give the consequences. `Growth.CeilingIff` gives the overall one: with a healthy node and database, an
  indexer gets above two queue depths if and only if its batches hold at least max depth + 2 heights. The
  defaults (src/config.rs:104-117) do not, so a default indexer resets to genesis again and again and never
  stores a height above 64 (`Growth.DefaultsStayBelow`).
- Rolling back does not reach `address_transactions` (migrations/0001_initial.sql:68-75), although
  docs/ARCHITECTURE.md:50 has all orphaned data deleted (`Witnesses.OneTransactionLeavesSurplus`).
- `token_transfers` has one row per log, but a batch log decodes to many transfers
  (migrations/0001_initial.sql:60, src/decode/erc20.rs:151-172), so decoded transfers may be lost although
  docs/ARCHITECTURE.md:55 promises all of them (`Witnesses.BatchLosesTransfers`).
- After an early break the last channel stays open and undrained while the tasks are joined
  (src/main.rs:186, 214-215). `Pipeline.HangPossibleIff` says when the main loop can then hang for good.
- Recovery from the durable cursor (docs/ARCHITECTURE.md:59) is not what a running process does: when the
  acknowledgement of a commit is lost, the next batch starts from the stale in-memory cursor.
  `LostAcks.HarmfulLossBreaks` says exactly when that breaks the invariant, and `Witnesses.LostAckJoinsForks`
  is a run that leaves rows of two forks on top of each other.
- The log index query of scripts/check_invariants.sql:41-48 uses a window function in a WHERE clause, which
  PostgreSQL does not accept; the model states what the query means to report.

## Model

| member | source | states |
|---|---|---|
| `Ingest.RunKeepsInvariant` | src/main.rs:92-216 | In every state of every run, under any forks, failed calls, batch boundaries and crashes: the stored heights are exactly lo..cursor with lo 0 or 1, each row names the row below as parent, the cursor carries its row's hash or zeros, every foreign key resolves, log indices have no holes, and the in-memory cursor equals the durable one |
| `Ingest.StepKeepsInvariant` | src/main.rs:106-212 | Each step of the machine (boot, batch start, attempt, batch end, crash) keeps that invariant |
| `Ingest.AttemptKeepsInvariant` | src/pipeline/committer.rs:11-102 | One commit attempt on any answers keeps it; a stored verdict puts the cursor at the height, a rollback leaves zeros, an error leaves the tables as they were |
| `Ingest.StoreKeepsInvariant` | src/store/postgres.rs:25-36 | Committing a block that passed detection keeps it |
| `Ingest.RollbackKeepsInvariant` | src/reorg/rollback.rs:5-79 | Rolling back to genesis or to the cursor's height keeps it |
| `Ingest.DetectionAdmitsOnlyTheChild` | src/reorg/detect.rs:15-25 | From height 2 on, only a block whose parent is the cursor's own stored block passes detection |
| `Ingest.RollbackTargets` | src/pipeline/committer.rs:30-52 | A detected reorg always has genesis or the cursor's own height as its ancestor |
| `Ingest.PlausibleAnswersAreHonest` | src/decode/block.rs:7-28 | Decoding any answer with a genuine header yields that header and rows that name their own block, so runs over raw answers are runs of the machine |
| `Outcomes.CheckerIsExact` | scripts/check_invariants.sql:1-57 | In every state of every run the repository's checker reports a violation if and only if the cursor hash is all zeros |
| `Outcomes.CheckerOnInvariant` | scripts/check_invariants.sql:1-48 | No reachable state has a height gap, a parent mismatch or a log index gap |
| `Outcomes.ZeroCursorRefuses` | src/reorg/detect.rs:23-61 | With zeros in the cursor, every height of at least max depth + 2 is refused and nothing changes |
| `Outcomes.HighRollbackStallsForever` | src/pipeline/committer.rs:43-61 | Once the cursor holds zeros at a height of at least max depth + 2, no continuation or restart ever changes the tables again |
| `Outcomes.RollbackThenStall` | src/reorg/rollback.rs:62-75 | So every rollback to an ancestor of at least max depth + 2 freezes the tables for good |
| `Outcomes.HighStartStoresNothing` | src/main.rs:92-128 | An indexer configured to start at height 2 or above never stores a block |
| `Outcomes.RollbackLeavesOnlyCanonicalRows` | src/reorg/detect.rs:31-62 | After any rollback against a chain that holds still during the walk, every surviving row is the remote block of its height |
| `Outcomes.CanonicalBelowAncestor` | src/reorg/rollback.rs:37-40 | The rows a delete above the walk's answer keeps all lie on the remote chain |
| `Outcomes.StableRefusal` | src/reorg/detect.rs:8-62 | Against a stable remote and an intact cursor c, the outcome for any height n ≥ 2 other than c + 1, in closed form |
| `Outcomes.ChildIsStored` | src/pipeline/committer.rs:64-101 | Against a stable remote the height above an intact cursor is stored, and the cursor is intact again |
| `Outcomes.StableBatchStoresTheRest` | src/main.rs:128-212 | A batch c..e from an intact cursor c ≥ max depth + 2: height c is refused, exactly c+1..e are stored, in-memory cursor and counter follow |
| `Outcomes.StableBatchResets` | src/main.rs:176-187 | The same batch with 2 ≤ c ≤ max depth + 1: the first height rolls the store back to genesis and ends the batch |
| `Outcomes.SkippedHeightZeroesCursor` | src/main.rs:204-210 | A height reached after a refused one, within the depth: a rollback that removes no row and replaces the intact cursor hash by zeros |
| `Outcomes.OneRefusalStallsForever` | src/main.rs:204-210 | Above max depth + 2, one such skip freezes the tables in every continuation |
| `Outcomes.DrainIsRun` | src/main.rs:168-212 | Draining a batch is a sequence of steps of the state machine |
| `Outcomes.DrainKeepsInvariant` | src/main.rs:168-212 | So the batch loop keeps the durable invariant |
| `Replay.RunReplays` | docs/ARCHITECTURE.md:53-67 | In every state of every run, blocks, transactions, logs and transfers are exactly what committing the stored blocks, lowest first, makes of an empty store: forks, rollbacks, repeated heights and repeated transaction hashes leave no trace in them |
| `Replay.RunHoldsEveryBlock` | docs/ARCHITECTURE.md:53-55 | In every state of every run each stored block is held whole: every transaction hash has a row, its own or that of a lower stored block with the same hash, the logs of its height are exactly its own, the transfers are the first of each log; and every transaction row belongs to the stored block at its height |
| `Replay.AttemptKeepsReplay` | src/pipeline/committer.rs:11-102 | One attempt on any archived answers keeps the tables a replay of the stored blocks |
| `Replay.RollbackCutsCommits` | src/reorg/rollback.rs:37-40 | Rolling back commits in ascending order leaves exactly the commits up to the ancestor |
| `Replay.CommitAllHolds` | src/store/postgres.rs:25-36 | Committing decoded blocks in ascending order holds each of them whole |
| `Replay.CommittedBelong` | src/store/postgres.rs:97-130 | Every transaction row comes from a committed block and carries that block's height |
| `Growth.StableIndexerHasCeiling` | src/main.rs:128-212 | With batches of at most max depth + 1 heights, a first block of 0 or 1 and every call answered by one stable chain, no run, with restarts and early batch ends, ever stores a height above two queue depths |
| `Growth.StableIndexerReaches` | src/main.rs:128-212 | With batches of at least max depth + 2 heights every higher height of the stable chain is reached |
| `Growth.CeilingIff` | src/main.rs:128-212 | So the ceiling holds if and only if batches hold at most max depth + 1 heights |
| `Growth.DefaultsStayBelow` | src/config.rs:104-117 | A default indexer with a healthy node and database never stores a height above 64 |
| `Growth.LowIsStored` | src/reorg/detect.rs:15-25 | Heights 0 and 1 are stored whatever the cursor says |
| `Growth.StallWithinReach` | src/main.rs:204-210 | For every such configuration and stable chain some run, with two missing answers in one batch, stalls for good |
| `LostAcks.LossyRunsStayWeak` | src/store/postgres.rs:35 | Whatever acknowledgements are lost: no gap in the stored heights, genuine rows only, a stored cursor height, resolved foreign keys, dense log indices |
| `LostAcks.CarefulRunsKeepInvariant` | src/main.rs:128-212 | The full durable invariant survives every run in which a commit's acknowledgement is lost only where the next batch would start at height 2 or above, or not below the height just stored |
| `LostAcks.HarmfulLossBreaks` | src/main.rs:128 | That condition is exact: after any other loss, ending the batch and storing the next batch's first height leaves rows above the cursor |
| `LostAcks.AttemptKeepsWeak` | src/pipeline/committer.rs:11-102 | One attempt at any height keeps what survives losses |
| `Witnesses.SomeRunStalls` | src/reorg/rollback.rs:62-75 | Under every configuration with a first block of 0 or 1, queues of at least 2 and a depth of at least 1, some run from the empty store stalls for good, and the checker reports it |
| `Witnesses.WalksDiffer` | src/reorg/detect.rs:51-55 | For every fork height above genesis and every stored tip within the depth of it there is a fork on which the code's walk and the documented one differ, from an intact and from a zeroed cursor |
| `Witnesses.LostAckJoinsForks` | src/main.rs:128-212 | One lost acknowledgement and one fork lead to a stored row whose parent hash is not the hash of the row below |
| `Witnesses.OneTransactionLeavesSurplus` | migrations/0001_initial.sql:68-75 | One transaction, committed and rolled back, leaves empty tables and index entries without a transaction |
| `Witnesses.BatchLosesTransfers` | migrations/0001_initial.sql:51-62 | Every TransferBatch event of two or more items, alone in its block, is decoded whole and stored but for one transfer |
| `Durability.HeightKeptWhileStored` | docs/ARCHITECTURE.md:53-55 | As long as a height stays stored, no later step of a run removes or changes any row of it |
| `Durability.StepLosesWholeBlocks` | docs/ARCHITECTURE.md:53-55 | Whatever row a step removes belonged to a block that step removed |
| `Durability.StoredBlockIsComplete` | src/store/postgres.rs:25-36 | A decoded block stored above all others is held whole: its header, a row for every transaction hash, exactly its logs, and exactly the first transfer of each log |
| `Durability.CommitKeepsHeld` | src/store/postgres.rs:71-187 | A block held whole stays so when a higher one is stored |
| `Durability.CommitLosesNothing` | src/store/postgres.rs:71-228 | A commit neither removes nor overwrites a row |
| `Durability.RollbackLosesWholeBlocks` | src/reorg/rollback.rs:37-40 | A rollback removes transactions, logs and transfers only with their block |
| `Reorg.FindAncestor` | src/reorg/detect.rs:31-62 | The loop returns what the recursive walk specifies, whose every outcome `WalkExact` gives |
| `Reorg.WalkExact` | src/reorg/detect.rs:37-61 | Whatever calls fail: the walk finds a if and only if every call from the start down to a was answered, none above a matched, and a matches or is genesis; it fails with the node if and only if some call failed before any match and before genesis; and it exceeds the depth if and only if start > max depth and all max depth + 1 answers miss |
| `Reorg.NoCursorNeverMatches` | src/reorg/detect.rs:21-25 | With no cursor, every height from 2 on walks, and a walk can only end at genesis or in an error |
| `Reorg.Detect` | src/reorg/detect.rs:8-29 | Detection: none at heights 0 and 1 or when the cursor hash is the parent hash, otherwise the walk's answer |
| `Reorg.WalkOutcomes` | src/reorg/detect.rs:37-61 | With any failed calls, a found height is genesis or a match within the depth, and an exceeded depth is always reported as max + 1: the `start < depth` exit is never taken |
| `Reorg.WalkClosedForm` | src/reorg/detect.rs:37-61 | With all calls answered: the cursor's height if its hash matches there within the depth, else 0 if start ≤ max depth, else an exceeded depth |
| `Reorg.WalkAgreesWithDocumentation` | src/reorg/detect.rs:31-62 | For the cursors an indexer can have, intact or zeroed: the two walks agree if and only if the cursor is intact and its block canonical and not above the start, or the documented ancestor is genesis, or it is out of reach |
| `Reorg.WalksAgreeIff` | src/reorg/detect.rs:31-62 | The same for any hash in the cursor: if it is that of a remote block in reach, the walks agree exactly when that block is the documented ancestor; otherwise exactly when the documented ancestor is genesis or out of reach |
| `Reorg.WalkOverStableRemote` | src/reorg/detect.rs:37-61 | The walk's result against a chain that holds still, for any hash in the cursor |
| `Reorg.WalkNeverAboveCommonAncestor` | src/reorg/detect.rs:31-62 | The walk never returns a height above the true common ancestor |
| `Chain.AgreementCarriesDown` | src/reorg/detect.rs:31-62 | Where stored rows and remote agree at a height they agree at every stored height below |
| `Committer.Indexer.constructor` | src/main.rs:92-103 | The in-memory cursor starts at the durable one, or one below the configured first block, with nothing counted |
| `Committer.Indexer.CommitBlock` | src/pipeline/committer.rs:11-102 | The method's effect on the tables and its verdict are the protocol's attempt on the same answers |
| `Committer.Indexer.Turn` | src/main.rs:175-211 | One turn of the loop: a store advances cursor and counter, a refusal moves on, a rollback re-reads the cursor and ends the batch |
| `Committer.Indexer.TurnAt` | src/main.rs:168-211 | The turn for one height leaves exactly the rest of the batch to do |
| `Committer.Indexer.DrainBatch` | src/main.rs:168-212 | The loop's final tables, cursor, counter and way of ending are those of the batch specification |
| `Committer.BatchStops` | src/main.rs:176-187 | A rollback or a panic at one height ends the batch there |
| `Attempts.VerdictExact` | src/pipeline/committer.rs:11-102 | From raw answers, each verdict if and only if: stored, exactly when the block came, passes detection, all receipts came, it decodes, and the database accepts it; rolled back, exactly when it does not pass and the walk ends at an ancestor; a panic, exactly when an admitted block's decoder panics; everything else, any failed call included, is refused and leaves the tables as they were |
| `Attempts.RawAnswersAreStored` | src/pipeline/committer.rs:64-101 | In either receipt mode, an admitted block with matching receipts, contiguous log indices and well-formed transfer logs is stored if the database accepts it, and the inserted rows carry exactly those receipts |
| `Attempts.FailedWalkRefuses` | src/reorg/detect.rs:44-49 | A call that fails before the walk has found its ancestor leaves the tables as they were |
| `Attempts.DetectionExact` | src/reorg/detect.rs:8-29 | Detection passes exactly heights 0 and 1 and the block whose parent hash is the cursor's hash; otherwise it reports exactly what the walk finds, or that the node failed |
| `Attempts.ReceiptsExact` | src/pipeline/committer.rs:64-92 | Receipts come back exactly as the node's own list, or as the answers to the calls in order, all of them |
| `Attempts.DecodeErrorRefuses` | src/pipeline/committer.rs:94 | Every decoding error refuses the block and does not end the process |
| `Attempts.FirstBadLogDecides` | src/decode/erc20.rs:12-24 | The first transfer log that does not decode decides: its error refuses the block, its panic ends the process |
| `Attempts.MemoryCursorExact` | src/main.rs:92-97 | The in-memory cursor is the durable one, or one below the configured first block and never negative |
| `Audit.StepIsRecorded` | src/pipeline/committer.rs:45-51 | A step of a run changes the audit table only by rolling back, and then by exactly one row: ancestor the new cursor a, depth n − a up to the column's limit, range a + 1..n for the attempted height n, one zero hash per height of a..n; every block the step deleted lies in that range, and a step that writes no row deletes no block |
| `Audit.RunIsRecorded` | src/reorg/rollback.rs:10-20 | In every state of every run each audit row was written by one rollback step of the run, and stays |
| `Audit.AttemptIsRecorded` | src/reorg/rollback.rs:5-79 | The same for one attempt |
| `Committer.FetchReceipts` | src/pipeline/committer.rs:64-92 | One call per block gives the node's own list; one call per transaction gives the answer to call i as receipt i, and nothing if any is missing |
| `Committer.CollectOrphanedHashes` | src/pipeline/committer.rs:104-114 | One zero hash for each height from the ancestor up to the incoming one |
| `Committer.EventWritesZeroHash` | src/reorg/rollback.rs:62-73 | Whatever the ancestor, the committer's event writes zeros to the cursor |
| `Committer.AncestorBelow` | src/pipeline/committer.rs:45-51 | A found ancestor is below the incoming height, so the event's depth does not underflow |
| `Store.WriteTransaction.Execute` | src/store/postgres.rs:71-246 | Statements run one by one; the call succeeds if and only if none violates a constraint and the connection lasts |
| `Store.PostgresStore.CommitBlock` | src/store/postgres.rs:25-36 | However many round trips get through, the durable tables are wholly the old ones or wholly the committed ones |
| `Store.PostgresStore.Rollback` | src/reorg/rollback.rs:5-79 | The same for a rollback |
| `Store.CommitScriptSucceeds` | src/store/postgres.rs:71-246 | The script of a decoded block violates no constraint, and its effect is first-wins insertion table by table plus the cursor |
| `Store.CommitOutcome` | src/store/postgres.rs:25-36 | It fails exactly when the height is free and the block's hash is stored at another height |
| `Store.IntegrityAtEveryStatement` | migrations/0001_initial.sql:13-62 | Wherever the script of a decoded block is cut, every foreign key resolves |
| `Store.RunKeepsIntegrity` | migrations/0001_initial.sql:13-62 | Any sequence of accepted statements keeps every foreign key resolved |
| `Store.CommitKeepsIntegrity` | src/store/postgres.rs:25-36 | So does a whole commit |
| `Store.CommitTwice` | docs/ARCHITECTURE.md:65-67 | Committing a block twice equals committing it once |
| `Store.RunKeepsUnique` | migrations/0001_initial.sql:3 | No sequence of accepted statements stores one hash at two heights |
| `Store.DuplicateHashIsRefused` | migrations/0001_initial.sql:3 | A block whose hash is stored at another height is refused with all its rows |
| `Store.RollbackScriptSucceeds` | src/reorg/rollback.rs:10-75 | The rollback script violates no constraint and has the stated effect on every table |
| `Store.RollbackCursor` | src/reorg/rollback.rs:62-75 | The cursor after a rollback: zeros at genesis, else the first orphaned hash, else the empty string |
| `Store.RollbackUndoesCommits` | src/reorg/rollback.rs:37-40 | From tables with all rows at heights ≤ a, any commits above a followed by a rollback to a restore blocks, transactions, logs and transfers exactly, even with repeated transaction hashes |
| `Store.CommitsGrow` | src/store/postgres.rs:71-187 | Commits above a only add rows above a |
| `Store.DeleteRestores` | migrations/0001_initial.sql:13-62 | The cascading delete removes exactly the rows added above a |
| `Store.FirstWinsRows` | src/store/postgres.rs:76-80 | Insertion with ON CONFLICT DO NOTHING keeps old rows and takes new ones only from the list |
| `Projections.IndexProjectsTransactions` | src/store/postgres.rs:189-228 | After commits alone of decoded blocks, at most one with transactions per height, without repeated transaction hashes, the address index is exactly the two-direction projection of the transactions table |
| `Projections.PositionsDistinct` | src/decode/block.rs:60-71 | In such a run no (block, index) position occurs twice |
| `Projections.RollbackLeavesSurplus` | migrations/0001_initial.sql:68-75 | A following rollback leaves the index as it was: the projection of the surviving transactions plus a surplus that is exactly the projection of the deleted ones |
| `Projections.SurplusIff` | src/reorg/rollback.rs:37-40 | There is a surplus if and only if the rollback deletes a transaction |
| `Projections.ProjectionGrows` | src/store/postgres.rs:189-228 | Inserting one new transaction's entries keeps the index a projection |
| `Projections.StoredTransfers` | src/store/postgres.rs:159-187 | A decoded block committed at a height without transfers stores the first transfer of each transfer log and nothing else; none is lost if and only if no log decodes to two or more |
| `Projections.GroupsStored` | migrations/0001_initial.sql:51-62 | The same for any grouping of transfers by log |
| `Projections.CommitsAsRows` | src/store/postgres.rs:97-228 | A run of commits is one first-wins insertion of all its transaction and index rows |
| `Sequencer.ReorderBuffer.constructor` | src/pipeline/sequencer.rs:7-12 | The buffer starts empty and expects the first height of the batch |
| `Sequencer.ReorderBuffer.DrainBuffer` | src/pipeline/sequencer.rs:31-42 | Releases in order, the buffered block of the expected height first, until the next height is missing; a no-op when it is missing at once |
| `Sequencer.ReorderBuffer.Receive` | src/pipeline/sequencer.rs:15-21 | The expected block is released at once, any other is buffered and nothing is released; after each arrival everything releasable is released, and nothing that arrived is lost |
| `Sequencer.Run` | src/pipeline/sequencer.rs:7-29 | For any arrival order: the blocks at exactly the heights before the first missing one, ascending |
| `Sequencer.OrderDoesNotMatter` | src/pipeline/sequencer.rs:7-42 | Two arrival orders of the same blocks release the same sequence |
| `Pipeline.StepConserves` | src/pipeline/worker.rs:29-50 | No step of any task makes, drops or copies a number |
| `Pipeline.OnePlace` | src/pipeline/worker.rs:29-50 | In every reachable state each height of the batch is in exactly one place: undispatched, queued, with a worker, failed, in a channel, buffered or released |
| `Pipeline.RunsKeepInvariantAndEnd` | src/main.rs:140-215 | Every interleaving keeps the pipeline invariant and has a bounded number of steps |
| `Pipeline.StepTakesWork` | src/main.rs:140-215 | Every step reduces a measure of the remaining work |
| `Pipeline.ReleasedPrefix` | src/pipeline/sequencer.rs:14-42 | At any time the released heights are an ascending prefix of the batch without a failed one, and the final drain finds nothing to release |
| `Pipeline.EndedReleasesLongestPrefix` | src/pipeline/sequencer.rs:14-42 | When the sequencer has ended it has released the longest failure-free prefix |
| `Pipeline.ReleaseIgnoresSchedule` | src/pipeline/sequencer.rs:14-42 | Two complete runs with the same failed heights release the same sequence |
| `Pipeline.DispatchFinishes` | src/main.rs:158-168 | With at most 3q + workers + 1 heights, where no task can move the main loop is past dispatching and past draining, although the last channel is not drained during dispatch; breaking off the drain does not count as a move |
| `Pipeline.QuietDrainHasWork` | src/main.rs:168 | The drain loop is never left waiting for a height that does not come |
| `Pipeline.WorkersStop` | src/main.rs:214 | With at most 2q + 2 heights the worker join always ends, early break or not |
| `Pipeline.SequencerJoinEnds` | src/main.rs:215 | The sequencer join ends if and only if at most q releasable heights were left unconsumed |
| `Pipeline.MaximalRun` | src/main.rs:129-215 | Every run of a batch of at most 2q heights in which no task can move any more, whether broken off or not, has everything dispatched, the drain loop left, all workers stopped, an ascending prefix released, and the joins passed if and only if the rest of the longest prefix fits the last channel |
| `Pipeline.FullDrainEnds` | src/main.rs:129-215 | A run that is never broken off and in which no task can move any more has consumed the whole longest prefix and passed the joins: a full drain always ends |
| `Pipeline.HangPossibleIff` | src/main.rs:186 | Some run hangs in the joins if and only if the batch holds at least two more heights than the last channel |
| `Pipeline.BreakAfterFirstHangs` | src/main.rs:186 | In such a batch, breaking off after the first height and then going on as far as possible is such a run |
| `Pipeline.ReachQuiet` | src/pipeline/worker.rs:24-59 | Every run can go on, without failures and without the drain loop, until no other task can move |
| `BlockDecoder.DecodeTransactions` | src/decode/block.rs:44-74 | The loop computes the specified transactions, or the first mismatch |
| `BlockDecoder.DecodeLogs` | src/decode/block.rs:106-141 | The loop computes the specified logs, or the first index gap |
| `BlockDecoder.DecodeBlock` | src/decode/block.rs:7-28 | The whole decoder computes the specified block, or the first error in the source's order |
| `BlockDecoder.DecodeBlockSucceedsIff` | src/decode/block.rs:7-28 | For fewer than 2^32 logs, decoding succeeds if and only if receipts match transactions pointwise, flattened log indices equal positions, and every transfer log is well formed |
| `BlockDecoder.DecodedContents` | src/decode/block.rs:30-141 | On success transaction i carries index i and receipt i's outcome (a type or status above 255 becomes 0), logs are the receipts' logs in order with at most four topics, and the transfers are theirs |
| `BlockDecoder.FlatLogsInOrder` | src/decode/block.rs:13-19 | Log j of receipt i follows all logs of earlier receipts |
| `BlockDecoder.TransactionsDecode` | src/decode/block.rs:44-104 | Transactions decode if and only if all receipt hashes match, and to what |
| `BlockDecoder.LogsDecode` | src/decode/block.rs:106-141 | Logs decode if and only if every index equals its position, and to what |
| `BlockDecoder.LogDecodes` | src/decode/erc20.rs:9-175 | Which logs of an RPC answer the transfer decoder accepts: for a batch, offsets whose slices do not wrap and lie inside the data, and equal stated lengths that can be allocated |
| `BlockDecoder.TransferTopicNeverLacksAddress` | src/decode/erc20.rs:13-18 | A log with the Transfer topic never fails for want of an address topic |
| `BlockDecoder.TransfersOrdered` | src/decode/erc20.rs:9-27 | Decoded transfers are ordered by log index and name logs of their own block |
| `BlockDecoder.DecodedWellFormed` | src/decode/block.rs:7-28 | Every row of a decoded block names that block, logs are numbered from zero, and transfers name existing logs |
| `BlockDecoder.DecodedFaithful` | src/decode/block.rs:7-28 | And its transfers are those of its logs |
| `BlockDecoder.DecodedPositioned` | src/decode/block.rs:60-71 | In a block of fewer than 2^32 transactions each carries its own position |
| `Transfers.DecodeTokenTransfers` | src/decode/erc20.rs:9-27 | The loop concatenates each log's transfers, or stops with the first failing log |
| `Transfers.DecodeErc1155Batch` | src/decode/erc20.rs:117-175 | The decoder meets the closed form: its errors and panics in the source's order, with wrapping offsets and the allocation limit, and otherwise a result whose length is the least of the stated length and the whole words after each header |
| `Transfers.CollectBatch` | src/decode/erc20.rs:149-172 | The loop collects exactly that many pairs and reads only inside the data |
| `Transfers.BatchRoundTrip` | src/decode/erc20.rs:117-175 | Decoding the canonical ABI encoding of two equally long word lists yields their pairs in order if so many transfers can be allocated, and panics otherwise |
| `Transfers.TransfersStopAtFirstFailure` | src/decode/erc20.rs:12-24 | Later logs do not change the first failure |
| `Transfers.MostSignificantFirst` | src/decode/erc20.rs:41 | Words are read with the most significant byte first |
| `LogContents.OtherLogsYieldNothing` | src/decode/erc20.rs:12-24 | A log without topics, of any other event, or with the Transfer topic and fewer than three topics decodes to no transfer |
| `LogContents.TransferLogYields` | src/decode/erc20.rs:29-75 | A Transfer log with three topics yields one ERC-20 transfer of its 32-byte value, or the length error; with more, one ERC-721 transfer of its fourth topic |
| `LogContents.SingleLogYields` | src/decode/erc20.rs:90-115 | A TransferSingle log yields one transfer of its first two words, whatever follows them, or the error for the missing topic or short data |
| `LogContents.BatchLogYields` | src/decode/erc20.rs:117-175 | A readable TransferBatch log yields item i if and only if i is within the stated length and both its words lie inside the data, and then pairs these two words |
| `LogContents.ShortBatchLogFails` | src/decode/erc20.rs:118-127 | Missing topics and short data are errors, never panics |
| `LogContents.BatchOffsetsFail` | src/decode/erc20.rs:129-137 | Offset words beyond 64 bits panic; otherwise one out of range is the length error; otherwise one whose end wraps around panics |
| `LogContents.BatchLengthsFail` | src/decode/erc20.rs:139-149 | Unequal lengths that fit 64 bits are the length error; lengths that do not fit, or cannot be allocated, panic |
| `LogContents.BlockTransfersHaveSources` | src/decode/erc20.rs:9-27 | Every transfer of a decoded block comes from a log of its receipts with one of the three topics and topics enough |
| `LogContents.CountIsReported` | src/decode/block.rs:50-56 | A receipt count mismatch is reported with both counts |
| `LogContents.MismatchIsReported` | src/decode/block.rs:60-68 | The first receipt hash mismatch is reported with its position and both hashes |
| `LogContents.GapIsReported` | src/decode/block.rs:110-120 | With matching receipts, the first log index gap is reported with position and index |
| `LogContents.FailureIsReported` | src/decode/block.rs:20 | Otherwise the first transfer log that does not decode gives the block's error or panic |
| `Events.Erc20RoundTrip` | src/decode/erc20.rs:29-53 | An ERC-20 event decodes to its sender, recipient and value |
| `Events.Erc721RoundTrip` | src/decode/erc20.rs:55-75 | An ERC-721 event decodes to its sender, recipient and token id |
| `Events.Erc1155SingleRoundTrip` | src/decode/erc20.rs:90-115 | A TransferSingle event decodes to its parties, id and value, not to its operator |
| `Events.Erc1155BatchRoundTrip` | src/decode/erc20.rs:117-175 | A TransferBatch event decodes to its (id, value) pairs in order |
| `Searches.FindClusters` | src/intelligence/clustering.rs:23-86 | Ends even on an infinite graph, without repeats, the start first and in order of discovery, with exactly the addresses to which a path of at most `max_depth` links leads, each link a sent or a received row; at a depth of zero or less the address alone |
| `Searches.BuildGraph` | src/intelligence/graph.rs:47-202 | The nodes are distinct, never the centre, at most `limit`, within `depth` links of either kind, closest first, in order of discovery, and below the limit exactly the addresses within `depth` without the centre |
| `Searches.GraphBeginsCluster` | src/intelligence/graph.rs:62-195 | The nodes of a graph are the first of the addresses a cluster search lists after the centre |
| `Searches.Expand` | src/intelligence/graph.rs:67-173 | One turn visits the head's sent rows and then its received rows and keeps queue, visited set and list in step |
| `Bfs.Visit` | src/intelligence/graph.rs:88-128 | The row loop appends each unvisited row while below the cap and enqueues it one level deeper |
| `Bfs.ExtendKeepsOrder` | src/intelligence/graph.rs:88-128 | New addresses are appended in the order of the rows |
| `Bfs.ExtendCapped` | src/intelligence/graph.rs:104 | The limit cuts the list short and changes nothing else |
| `Bfs.OrderIsUnique` | src/intelligence/clustering.rs:32-86 | There is only one order of discovery: of two lists from one start the shorter begins the longer |
| `Searches.BallIsWithin` | src/intelligence/clustering.rs:36-85 | The ball a search fills is what paths of sent and received links reach |
| `Bfs.StoppedAtBall` | src/intelligence/clustering.rs:32-35 | Stopping at the first entry at the depth limit loses nothing: the list is then the whole ball |
| `Bfs.FrontierAdvances` | src/intelligence/clustering.rs:32-86 | Expanding the next entry keeps distances exact and ascending and the reached balls complete |
| `Bfs.BallIsReachability` | src/intelligence/clustering.rs:32-86 | An address is in the ball of radius k if and only if a path of at most k edges leads to it |
| `Cache.IntelligenceCache.constructor` | src/intelligence/cache.rs:46-52 | A new cache is empty |
| `Cache.IntelligenceCache.Get` | src/intelligence/cache.rs:54-63 | The stored value if and only if the key is present and now ≤ insertion time + time to live |
| `Cache.IntelligenceCache.OldestKey` | src/intelligence/cache.rs:69-72 | A key with the least insertion time |
| `Cache.IntelligenceCache.SetWithTtl` | src/intelligence/cache.rs:89-111 | At capacity an oldest entry goes first, even when the key is only overwritten; then the entry is stored |
| `Cache.IntelligenceCache.Set` | src/intelligence/cache.rs:65-87 | The same with the default time to live |
| `Cache.IntelligenceCache.Remove` | src/intelligence/cache.rs:113-116 | Only that key goes |
| `Cache.IntelligenceCache.Clear` | src/intelligence/cache.rs:118-121 | Everything goes |
| `Cache.IntelligenceCache.CleanupExpired` | src/intelligence/cache.rs:123-126 | Exactly the entries with now ≤ insertion time + time to live stay, unchanged |
| `Cache.CleanupNeverLosesAHit` | src/intelligence/cache.rs:54-126 | In every run: sizes stay within bounds, the uncleaned cache is the newest part of the unbounded map, every hit is the latest unexpired value, and cleaning at any points never turns a hit into a miss |
| `Cache.ServedUntilExpiry` | src/intelligence/cache.rs:15-17 | In every run, after the last put of a key at time t with time to live d, and as long as the entry is not evicted, a lookup returns the value if and only if now ≤ t + d, and a cleanup keeps the entry if and only if it comes no later |
| `Cache.EvictionsAgree` | src/intelligence/cache.rs:89-99 | If a full cleaned cache evicts an entry the plain cache holds, the plain cache is full too and it is its oldest |
| `Cache.StepKeepsInvariant` | src/intelligence/cache.rs:65-126 | Every operation keeps the relation between plain cache, cleaned cache and unbounded map |
| `Cache.TiesMayLoseHits` | src/intelligence/cache.rs:89-126 | A run with tied insertion times in which a cleanup removes an expired entry and a live entry is later hit in the plain cache and missed in the cleaned one |
| `HexQuantity.ParseCharacterized` | src/rpc/types.rs:40-48 | Which strings after `0x` parse and to what: an optional plus sign and hex digits denoting less than 2^64 |
| `HexQuantity.DigitsInOrder` | src/rpc/types.rs:47 | The sixteen digits in both cases have the values 0 to 15 in order |
| `HexQuantity.FirstDigitWeighsMost` | src/rpc/types.rs:47 | Each digit weighs sixteen times the next |
| `HexQuantity.CaseDoesNotMatter` | src/rpc/types.rs:40-48 | A string and its lower-case form parse alike |
| `HexQuantity.RoundTripAnyCase` | src/rpc/mod.rs:36-43 | The printed form of any u64 parses back in any case |
| `HexQuantity.PrefixDecides` | src/rpc/types.rs:41-46 | The prefix alone is zero, and nothing without it is accepted |
| `HexQuantity.KnownQuantity` | src/rpc/types.rs:82-84 | The repository's own example, 0x1312D00, is 20 000 000 |
| `HexQuantity.PrintIsShortest` | src/rpc/mod.rs:39 | The printed form has no leading zero |
| `HexQuantity.AccumulateIsValue` | src/rpc/types.rs:47 | Checked 64-bit accumulation yields the denoted number exactly when it fits |
| `HexQuantity.RoundTrip` | src/rpc/mod.rs:36-43 | Parsing the printed form of any u64 returns it |
| `HexQuantity.LeadingZerosIgnored` | src/rpc/types.rs:40-48 | Leading zeros change nothing, and digits denoting 2^64 or more are always rejected |

## Left out

- SQL text, the connection pool, migrations, HTTP transport, JSON and rate limiting: replaced by keyed maps, statements, and answers that may be missing.
- Retry and backoff, metrics, telemetry, configuration, shutdown signals: a shutdown is one of the crash or batch-end steps.
- The intelligence tables that a rollback also deletes from or touches (`anomalies`, `mev_events`, `block_analytics`, `address_stats`, `contract_profiles`): nothing in the protocol reads them.
- Saturation of the i64 and i32 columns: ruled out by the bounds on numbers and indices.
- Running out of memory: an allocation the layout limit allows is taken to succeed; one above it is the `Panic` outcome, which ends the process.
- A worker task lost to a panic: in the pipeline a failed fetch is one that reports an error.
- Zero workers or zero channel capacity, which stop the pipeline before its first block.
- `total_interactions`, the cluster's dates and type, graph edges, node counters and `depth_reached`: aggregates and labels without a strong property.
- Hex decoding and formatting of addresses, failing queries and the LIMIT constants of the searches: a neighbour list is any finite list.
- Locking of the cache: its operations are atomic, as the lock makes them.
- `src/api/cache.rs` (the same design with fewer operations) and `src/pipeline/scheduler.rs` (not called by the main loop).
- API, websocket, website, alerting, export, labels, trends, anomaly and MEV analysis: plumbing, thresholds and floating point.
