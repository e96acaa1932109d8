# FokosDB core, modelled and proved in Dafny

FokosDB is a sharded transactional database. This project models its protocols, its ordering and
arithmetic code, and its batch loops, and proves what each of them promises. `dafny verify dfyconfig.toml`
checks the whole project.

## The components

1. **Two-phase commit** (`Participant`, `Coordinator`, `TransactionSystem`, `TransactionSafety`,
   `TwoPhaseCommit`, `RepeatedChecks`, `PrepareAnswers`, `TransactionProgress`). The ledger rows move only in storage transactions. The transition
   system has one action for each storage transaction, message and participant handler. The message set
   only grows, so a message can be lost, late or repeated. A drive knows only durable rows and delivered
   messages, so any number of concurrent drives and restarts are the interleavings of these actions.
   `SnapshotRead` puts the two-phase read of the client on top of the same participants, with its key map
   from `KeyPairMap`. `WriteOrder`, `SerialOrder` and `SerialReads` prove that the timestamp order of the
   transactions is a serial order, for the stores and for the reads.
2. **Repartition and online migration** (`RepartitionSlices`, `RepartitionSystem`, `RepartitionSafety`,
   `RepartitionSteps`, `OnlineMigration`, `RepartitionFlow`, `MigrationProgress`). A source and its targets share only
   messages. The table that clients see and the rows at each cutover are kept as history, and the theorems
   tie what each partition holds to them.
3. **Routing hashes and topologies** (`RoutingHash`, `Popcount`, `HashBitmap`, `HashBitmapEncoder`,
   `BloomFilter`, `PromotedSection`, `RangeTopology`, `HashArena`).
4. **Range planning and pages** (`SkIntervals`, `RangeFrontier`, `QueryPages`, `QueryWalk`, `QueryRequests`).
5. **Keys and names** (`KeyCodec`, `Utf8`, `PublicKeys`, `RangeNames`, `PartitionIds`).
6. **Batches** (`BatchScan`, `BatchAnswers`, `BatchResponse`, `BatchTree`, `BatchClient`, `BatchRetry`,
   `BatchCalls`). The last one composes the tree of partitions, the join of the client and the retry loop.

Classes and loops of the source are classes and methods here, each proved against a specification
function or a stated property. The lemmas are about those specifications.

## Where the code does less than a first reading suggests

Each has a concrete input, and a lemma or contract with the exact condition.

- A participant that only checks can apply a commit more than one time, because a late prepare of its
  checks passes. A concrete plan is `RepeatedChecks.ChecksCanApplyTwice`. A plan has a run with more than
  one apply at a participant exactly when the participant only checks
  (`RepeatedChecks.AppliesTwiceExactlyForChecks`), and a state allows one more exactly when each of those
  checks passes in it (`RepeatedChecks.AppliesAgain`). The repeated apply changes nothing
  (`TwoPhaseCommit.RepeatedCommitChangesNothing`).
- A text key that starts with U+FEFF decodes without it (`PublicKeys.ByteOrderMarkIsLost`,
  `DecodeOfEncode`).
- `notBeginsWith` misses the binary sort keys under a text prefix of only U+10FFFF
  (`PublicKeys.BinaryKeyIsLost`, `NotBeginsWithIsComplement`).
- A learned slice that holds all sort keys of the hash key inside its base is passed over by the frontier
  planner (`RangeFrontier.WholeDescendantIsPassedOver`, `DeepestExactly`, `OverlayOfDescendants`). The
  plan stays correct, with one more forward.
- A router that is restored with a smaller depth cap keeps deeper paths
  (`HashArena.RestoredArenaExceedsItsCap`, `HashArena.HashTopology.FromSnapshot`).

## Model

| member | source | states |
|---|---|---|
| `TwoPhaseCommit.RunKeeps` | packages/fokosdb/src/server/do-transaction-coordinator.ts:1388-1761 | every state of every run keeps the invariant that ties rows, messages, locks, decisions and applies together, with any interleaving of drives, and any loss, delay or repetition of messages |
| `TwoPhaseCommit.NeverCommitsAndCancels` | packages/fokosdb/src/server/do-transaction-coordinator.ts:1281-1291 | no transaction ever has a commit sent to one participant and a cancel sent to any participant |
| `TwoPhaseCommit.AllOrNothing` | packages/fokosdb/src/server/do-transaction-coordinator.ts:1575-1610 | a participant applies only a transaction that decided commit; a committed one has applied at every participant, a cancelling one at none; a participant with a write applies exactly one time |
| `RepeatedChecks.AppliesAgain` | packages/fokosdb/src/shared/partition/transaction-participant.ts:375-466 | where a participant has applied and holds no lock, a late prepare and a repeated commit apply again exactly when each operation there is a check of an item that is present, not locked, and written before the transaction |
| `RepeatedChecks.AppliesTwiceExactlyForChecks` | packages/fokosdb/src/shared/partition/transaction-participant.ts:375-466 | for any plan, participant and number of times above one: a run applies that often exactly when the participant only checks |
| `RepeatedChecks.ChecksCanApplyTwice` | packages/fokosdb/src/server/do-partition.ts:1781-1798 | a concrete plan with one check that a run applies two times |
| `TwoPhaseCommit.RepeatedCommitChangesNothing` | packages/fokosdb/src/shared/partition/transaction-participant.ts:752-823 | after one apply, a repeated commit changes no item, also where it applies again |
| `TwoPhaseCommit.NotFoundOwesNothing` | packages/fokosdb/src/server/do-transaction-coordinator.ts:1938-1951 | when the ledger answers `not_found`, a committed transaction has applied everywhere, a lock that is left holds only checks that the item records already, and the lock-age guard keeps none of it |
| `TwoPhaseCommit.FanOutChecksHold` | packages/fokosdb/src/server/do-transaction-coordinator.ts:1508-1519 | the defect checks of the fan-outs never fire: COMMITTING has only accepts and no cancel, CANCELLING has no commit |
| `TwoPhaseCommit.CommitKeysAlwaysMatch` | packages/fokosdb/src/shared/partition/transaction-participant.ts:752-790 | a commit request never meets lock rows that differ from its keys or its timestamp |
| `TwoPhaseCommit.OneTransactionPerToken` | packages/fokosdb/src/server/do-transaction-coordinator.ts:767-790 | one idempotency token names at most one transaction of the ledger |
| `TwoPhaseCommit.LedgerMovesForward` | packages/fokosdb/src/server/do-transaction-coordinator.ts:1037-1061 | a step moves a row only along CREATED, PREPARING and one branch, keeps the first stored answers and the decision, and a row goes only when it is terminal and completed more than ten minutes ago |
| `TwoPhaseCommit.RowsMoveForwardInRuns` | packages/fokosdb/src/server/do-transaction-coordinator.ts:1037-1061 | over any run a row that is still there has moved only forward and keeps its first answers, a row that went at any point never comes back, and a decision stays |
| `TwoPhaseCommit.CommitNeedsEveryAccept` | packages/fokosdb/src/server/do-transaction-coordinator.ts:1371-1380 | only the decision step enters COMMITTING, and only when the first stored answer of every participant is an accept |
| `PrepareAnswers.FatalErrorsStick` | packages/fokosdb/src/server/do-transaction-coordinator.ts:1091-1120 | over any run, a participant with no answer and a fatal error keeps both until the row is terminal or gone, and its transaction never enters COMMITTING |
| `PrepareAnswers.FatalErrorHolds` | packages/fokosdb/src/server/do-transaction-coordinator.ts:1176-1212 | in every reachable state, a stored fatal error of a participant with no answer excludes a commit decision |
| `TransactionProgress.CanAlwaysFinish` | packages/fokosdb/formal/p/PSpec/Liveness.p:67-85 | no state is a dead end: from every reachable state some continuation makes the row of each transaction terminal and leaves no lock of it, applied everywhere if it committed |
| `TransactionProgress.EveryLockResolves` | packages/fokosdb/formal/p/PSpec/Liveness.p:4-45 | from every reachable state some continuation releases each lock, or the guard keeps it, and that only for a cancelled transaction that the ledger forgot and whose lock is over age |
| `TransactionProgress.CanCommit` | packages/fokosdb/src/server/do-transaction-coordinator.ts:1281-1380 | a transaction whose operations all pass, with no stored answer or fatal error, has a continuation that commits it, and each participant then holds its effect on each key that it writes |
| `TransactionProgress.CommitIsFinished` | packages/fokosdb/src/server/do-transaction-coordinator.ts:1493-1611 | a COMMITTING transaction has a continuation to COMMITTED in which each participant that had not applied holds its effect |
| `TransactionSafety.NotFoundIsSettled` | packages/fokosdb/src/server/do-partition.ts:1781-1798 | a participant that still locks for a swept transaction either sees a cancelled one, or has applied it and holds only stamped checks |
| `TransactionSafety.ApplyRecoveryKeeps` | packages/fokosdb/src/server/do-partition.ts:1727-1830 | the participant side of stale-lock recovery keeps the invariant, with any answer that was ever sent |
| `TransactionSafety.DeliverPrepareKeeps` | packages/fokosdb/src/shared/partition/transaction-participant.ts:375-466 | a prepare that locks or refuses, first or late, keeps the invariant: a transaction that applied locks again only for checks |
| `PrepareAnswers.PrepareIsDecided` | packages/fokosdb/src/shared/partition/transaction-participant.ts:535-595 | a prepare that fails no condition is accepted exactly when each operation is on a key that the transaction locks, or on an unlocked key whose deletion, write or read stamp is below the timestamp; then exactly its keys are locked, and else nothing changes |
| `PrepareAnswers.InsertIsAccepted` | packages/fokosdb/src/shared/partition/transaction-participant.ts:575-591 | a put on a new key that nobody locks is accepted when the timestamp is above the deletion watermark |
| `PrepareAnswers.RecoveryIsDecided` | packages/fokosdb/src/server/do-partition.ts:1727-1830 | each answer of the ledger to a participant that still locks: a cancelled or forgotten transaction loses its locks, except that the guard keeps them exactly when one is older than ten minutes and one holds a write or an unstamped check |
| `TransactionSafety.DeliverCommitKeeps` | packages/fokosdb/src/shared/partition/transaction-participant.ts:752-823 | a commit request, first or repeated, keeps the invariant and is confirmed only after the apply |
| `TransactionSafety.CancelAtKeeps` | packages/fokosdb/src/shared/partition/transaction-participant.ts:878-887 | the release of all locks of a transaction that cancelled, or that has applied here, keeps the invariant |
| `TwoPhaseCommit.SingleShotKeeps` | packages/fokosdb/src/shared/partition/transaction-participant.ts:837-876 | the writes of a single-partition transaction keep the invariant of every pending one |
| `WriteOrder.SingleShotIsApplied` | packages/fokosdb/src/shared/partition/transaction-participant.ts:837-876 | a single-partition write leaves on each key what its operations leave in order, stamps each key that it names, and changes no lock and no other partition |
| `WriteOrder.DeleteIsApplied` | packages/fokosdb/src/shared/partition/partition-store.ts:1271-1310 | a delete of an unlocked key removes exactly its row and records its stamp, and changes nothing where there is no row |
| `Coordinator.TransactionCoordinator.InitiateWrite` | packages/fokosdb/src/server/do-transaction-coordinator.ts:767-887 | a token that is not in the ledger inserts one CREATED row with its participants; a known one changes nothing, and resumes the same operations or refuses others |
| `Coordinator.TransactionCoordinator.BeginPreparing` | packages/fokosdb/src/server/do-transaction-coordinator.ts:1388-1430 | a drive goes on exactly from CREATED or PREPARING, and then the row is PREPARING; else nothing changes |
| `Coordinator.TransactionCoordinator.StorePrepareAnswer` | packages/fokosdb/src/server/do-transaction-coordinator.ts:1091-1120 | an answer is stored exactly while the row is PREPARING and the participant has no answer and no fatal error; then its answer is the only change, and else there is none |
| `Coordinator.TransactionCoordinator.StorePrepareError` | packages/fokosdb/src/server/do-transaction-coordinator.ts:1184-1212 | an error is stored exactly while the row is PREPARING and the participant has no answer and no fatal error, and is then the only change |
| `Coordinator.TransactionCoordinator.EveryStoredAnswerAccepts` | packages/fokosdb/src/server/do-transaction-coordinator.ts:1371-1380 | the row scan of the commit decision is true exactly when each participant row holds an accept |
| `Coordinator.TransactionCoordinator.DecideRecovery` | packages/fokosdb/src/server/do-transaction-coordinator.ts:1692-1761 | a recovery drive commits exactly when every stored answer accepts, cancels exactly when not and a participant rejects, has only a fatal error, or the hold time is over, and else changes nothing; only a PREPARING row moves, to COMMITTING or CANCELLING |
| `Coordinator.TransactionCoordinator.StoreConfirmations` | packages/fokosdb/src/server/do-transaction-coordinator.ts:1493-1611 | a COMMITTING row stores exactly the confirmed participants, no other row or column changes, and the missing ones are counted |
| `Coordinator.TransactionCoordinator.SweepExpired` | packages/fokosdb/src/server/do-transaction-coordinator.ts:1892-1914 | a sweep deletes the expired rows that completed first, a whole batch of them when one is left, and nothing else |
| `Participant.ApplyOpAdvances` | packages/fokosdb/src/shared/partition/partition-store.ts:1171-1310 | one write raises the stamp of its key to exactly the highest of its timestamp and the stamps that the key had; a put takes the next version; no other row, and no write stamp by a check, changes; no stamp and no version falls |
| `Participant.ApplyFromAdvances` | packages/fokosdb/src/shared/partition/transaction-participant.ts:726-745 | an apply stamps each key that it visits at or above the transaction timestamp, and touches no key without a lock |
| `Participant.RepeatedChecksChangeNothing` | packages/fokosdb/src/shared/partition/transaction-participant.ts:726-745 | a second apply of stamped checks gives the same store |
| `SnapshotRead.ReadTransaction` | packages/fokosdb/src/client/db.ts:1210-1313 | `committed` exactly when both phases answered with no pending write and agree on every requested key; each failure and each pending write exactly in its order of checks; else the first key that disagrees |
| `SnapshotRead.PairPhases` | packages/fokosdb/src/client/db.ts:1262-1313 | the items are positional to the request, and the first key of the request that a phase dropped or that changed decides the outcome |
| `SnapshotRead.IndexByKey` | packages/fokosdb/src/client/db.ts:1230-1262 | the key map of a phase gives for each key the last reply of that key |
| `SnapshotRead.CommittedReadIsASnapshot` | packages/fokosdb/src/client/db.ts:1210-1313 | the items of a committed read are the contents of all requested keys together, at every instant between the phases |
| `SnapshotRead.AgreeingReadsAreStable` | packages/fokosdb/src/client/db.ts:1255-1285 | two reads of a key that agree show its content and its version at each instant between them |
| `SnapshotRead.ReadsAgreeExactly` | packages/fokosdb/src/client/db.ts:1262-1290 | two reads of a key agree exactly when at every instant between them the key has the same row, or has none and its partition removes no row |
| `SnapshotRead.UndisturbedReadCommits` | packages/fokosdb/src/client/db.ts:1210-1313 | a read commits when each requested key is answered in both phases, meets no pending write, and is not disturbed |
| `SnapshotRead.PendingIsAWrite` | packages/fokosdb/src/shared/partition/transaction-participant.ts:889-950 | a read reports a pending write exactly when the transaction that locks the key has an operation on it that is not a check |
| `SnapshotRead.NoTornWrite` | packages/fokosdb/src/shared/partition/transaction-participant.ts:889-950 | when a transaction has applied at one participant, each requested key it writes shows content from a state in which it applied there too |
| `SnapshotRead.PutsAreAllOrNothing` | packages/fokosdb/src/client/db.ts:1210-1313 | the puts of one transaction on requested keys have all applied at the instant of the read, or none has |
| `SnapshotRead.CommittedWriteIsSeen` | packages/fokosdb/src/shared/partition/transaction-participant.ts:889-950 | a decided commit is at each written key an apply, or a lock that a read reports as pending |
| `WriteOrder.NewLockIsAbove` | packages/fokosdb/src/shared/partition/transaction-participant.ts:375-466 | an accepted prepare locks each key above the stamps of every earlier write of it, and where it writes above those of every earlier operation |
| `WriteOrder.NextKeepsOrder` | packages/fokosdb/src/shared/partition/transaction-participant.ts:726-745 | each step keeps that locks are above what happened to their keys, that stores absorb every stamp, and that applies are in timestamp order |
| `SerialOrder.AppliesFollowTimestamps` | packages/fokosdb/formal/p/PSpec/WriteSerializable.p:9-34 | in every run, an apply of a two-phase transaction is above the stamp of every earlier put and delete of its keys, also of writes outside the protocol, and above every earlier operation of the keys that it writes |
| `SerialOrder.ConflictsFollowTimestamps` | packages/fokosdb/formal/p/PSpec/WriteSerializable.p:1-9 | a transaction that applies has a higher timestamp than each conflicting one that applied there before |
| `SerialOrder.AppliedBeforeIsOlder` | packages/fokosdb/formal/p/PSpec/WriteSerializable.p:1-9 | over any run, of two conflicting transactions at a partition the one that applied first has the lower timestamp, so the timestamp order is a serial order |
| `SerialOrder.LocksExclude` | packages/fokosdb/formal/p/PSpec/Locks.p:21-46 | while a transaction locks a key, nothing else applies to the key or changes its value there, and no other transaction takes the lock |
| `SerialOrder.StoresFollowTimestamps` | packages/fokosdb/src/shared/partition/transaction-participant.ts:726-745 | a key that nothing else wrote holds the effect of its applied writer with the highest timestamp, or what it held at the start |
| `SerialReads.CommittedReadIsSerial` | packages/fokosdb/formal/p/PSpec/ReadSerializable.p:4-68 | a committed read shows the state after a prefix of the serial order: on each requested key that nothing else wrote, the effect of the youngest transaction of the prefix that writes it |
| `SerialReads.PrefixIsClosed` | packages/fokosdb/formal/p/PSpec/ReadSerializable.p:102-121 | what applied to a key before a transaction of the prefix is in the prefix |
| `SerialReads.FinishedIsInPrefix` | packages/fokosdb/formal/p/PSpec/Answers.p:27-103 | a transaction that is COMMITTED before the read is in the prefix at each of its participants |
| `KeyPairMap.Table.Set` | packages/fokosdb/src/sharding/key-codec.ts:342-360 | the contents after a set are the insertion-ordered update of the old ones, across the switch to buckets and for any hash function |
| `KeyPairMap.Table.Get` | packages/fokosdb/src/sharding/key-codec.ts:334-336 | the value that the contents hold for the key, or nothing |
| `KeyPairMap.Table.Find` | packages/fokosdb/src/sharding/key-codec.ts:372-375 | the one entry of a key, or null exactly when no entry has the key |
| `KeyPairMap.Table.Size` | packages/fokosdb/src/sharding/key-codec.ts:330-332 | the number of keys that the map holds |
| `KeyPairMap.UpdateIsMapUpdate` | packages/fokosdb/src/sharding/key-codec.ts:326-375 | an update changes what one key gives, keeps every other key, and keeps the insertion order |
| `KeyPairMap.UpdateKeepsDistinct` | packages/fokosdb/src/sharding/key-codec.ts:342-360 | an update never makes a second entry of a key |
| `KeyPairMap.BytesEqual` | packages/fokosdb/src/sharding/key-codec.ts:299-310 | equal exactly for equal bytes |
| `OnlineMigration.ExactlyOneOwner` | packages/fokosdb/src/sharding/repartition-flow.ts:149-189 | in every reachable state each key of the source has exactly one owner: the source, or exactly one target |
| `OnlineMigration.SlicesTile` | packages/fokosdb/src/sharding/repartition-flow.ts:346-451 | the slices of a plan are disjoint and cover what it moves, and each target imports the slice that the source stored |
| `OnlineMigration.ArbitrationHolds` | packages/fokosdb/src/sharding/repartition-flow.ts:195-280 | no split is beside an unfinished promotion or another split, and no routingHash is promoted twice |
| `OnlineMigration.ServedRowIsTheTable` | packages/fokosdb/src/sharding/repartition-flow.ts:531-556 | a partition that accepts a write of a row owns it and holds the value that the clients see |
| `OnlineMigration.EveryRowIsReadable` | packages/fokosdb/src/sharding/repartition-flow.ts:531-556 | each row can be read at its owner, or at the source while its target still imports |
| `OnlineMigration.ImportedIsTheSlice` | packages/fokosdb/src/sharding/repartition-flow.ts:941-1046 | a target that reaches `imported` holds exactly the source rows of its slice as of the cutover, and exactly the promotions it adopts |
| `OnlineMigration.StatesMoveForward` | packages/fokosdb/src/sharding/repartition-flow.ts:1273-1281 | source and import states only move forward, and kinds and slices never change |
| `OnlineMigration.CompletionMeansCopied` | packages/fokosdb/src/sharding/repartition-flow.ts:745-777 | the source completes only when every target has its complete copy |
| `OnlineMigration.ReclaimNeedsCompletion` | packages/fokosdb/src/sharding/repartition-flow.ts:612-631 | cleanup deletes only rows that every target has copied and the source no longer serves |
| `MigrationProgress.CleanedHoldsNothing` | packages/fokosdb/src/server/do-partition.ts:1187-1210 | in every reachable state a cleaned promotion has left no row of its hash at the source, and a cleaned split no copy of a lock |
| `MigrationProgress.CutoverWaits` | packages/fokosdb/src/sharding/repartition-flow.ts:745-777 | in every reachable state a row in cutover has a target that is not acknowledged |
| `MigrationProgress.CanAlwaysComplete` | packages/fokosdb/formal/p/PSpec/Liveness.p:87-112 | from every reachable state a planned repartition, or a queued one without host boundaries, has a continuation in which it is cleaned and every target is active |
| `OnlineMigration.PageAppliesOnce` | packages/fokosdb/src/sharding/repartition-flow.ts:941-1046 | after one page of a cursor applied, no page of that cursor ever applies again, in any continuation of the run |
| `OnlineMigration.SourceMessagesAreAccepted` | packages/fokosdb/src/sharding/repartition-flow.ts:1176-1193 | the checks of a target refuse no page and no init request of its own source |
| `OnlineMigration.AcceptedPageIsSafe` | packages/fokosdb/src/sharding/repartition-flow.ts:962-1003 | an accepted page of any sender moves the cursor forward, adds nothing outside the slice and nothing that the cursor has passed, and takes or replaces no row |
| `RepartitionSteps.NextKeeps` | packages/fokosdb/src/sharding/repartition-flow.ts:321-336 | each of the fifteen steps keeps the invariant of source, targets, messages and rows |
| `RepartitionSteps.LastPageCompletesCopy` | packages/fokosdb/src/sharding/repartition-flow.ts:833-890 | the last page leaves exactly the rows of the cutover that the target owns |
| `RepartitionSteps.ServedPageHolds` | packages/fokosdb/src/sharding/repartition-flow.ts:833-890 | while a row is in cutover, a served page holds the cutover rows between its two cursors |
| `RepartitionSlices.PlanTiles` | packages/fokosdb/src/sharding/repartition-flow.ts:346-451 | the slices of each kind of plan tile the keys that it moves |
| `RepartitionSlices.CheckBoundaries` | packages/fokosdb/src/sharding/repartition-flow.ts:370-425 | the boundary checks accept exactly a list of the right length that ascends strictly inside the partition |
| `RepartitionSlices.SliceIncludesRoutingHash` | packages/fokosdb/src/sharding/repartition-slice.ts:28-44 | the digit loop accepts exactly the hashes whose digits are the path of the slice |
| `RepartitionFlow.RepartitionSource.Queue` | packages/fokosdb/src/sharding/repartition-flow.ts:221-280 | queued exactly when no split is there, the kind fits the partition, a hash split waits for no promotion, and a hash is promoted at most one time |
| `RepartitionFlow.RepartitionSource.MakeSlices` | packages/fokosdb/src/sharding/repartition-flow.ts:346-451 | the slices of the plan, refused exactly for a boundary list that does not fit |
| `RepartitionFlow.RepartitionSource.Plan` | packages/fokosdb/src/sharding/repartition-flow.ts:339-451 | a queued row is planned exactly when its boundaries are accepted, with the slices of its plan pending, and no other row changes |
| `RepartitionFlow.RepartitionSource.MarkInitializing` | packages/fokosdb/src/sharding/repartition-flow.ts:466-500 | exactly the due targets that are pending become `initializing` |
| `RepartitionFlow.RepartitionSource.CutOver` | packages/fokosdb/src/sharding/repartition-flow.ts:531-556 | cutover exactly when the hook allows it, the row is planned, and every target confirmed |
| `RepartitionFlow.RepartitionSource.AcceptAck` | packages/fokosdb/src/sharding/repartition-flow.ts:745-777 | an acknowledgement counts from cutover on; in cutover exactly its target is marked, and the row completes exactly when every target is marked |
| `RepartitionFlow.RepartitionTarget.InitAsTarget` | packages/fokosdb/src/sharding/repartition-flow.ts:1132-1193 | the first call creates the import record of a partition with no identity, an equal call confirms it, and a call of another repartition, source or slice, or to a partition that is no target, is a conflict and changes nothing |
| `RepartitionFlow.RepartitionTarget.ApplyRequestedPage` | packages/fokosdb/src/sharding/repartition-flow.ts:985-1046 | a page applies exactly when the import is unfinished and its cursor has not moved; then the cursor moves, its absent rows or its overrides are added, and the last page completes the import |
| `RoutingHash.StepIsExact` | packages/fokosdb/src/sharding/hash-primitives.ts:95-118 | a step with two limbs gives the exact digit and rest, and no product reaches 2^53 |
| `RoutingHash.DigitCursor.Next` | packages/fokosdb/src/sharding/hash-primitives.ts:95-118 | the digit is floor(x * base / 2^64), and the rest stays |
| `RoutingHash.NumerOfDigits` | packages/fokosdb/src/sharding/hash-primitives.ts:120-132 | the mixed-radix digits of a hash, as one number, are floor(x * D / 2^64) |
| `RoutingHash.RoutingHashDigits` | packages/fokosdb/src/sharding/hash-primitives.ts:120-132 | the root and the path are those digits, each inside its base |
| `RoutingHash.DepthMemo.MaxHashDepth` | packages/fokosdb/src/sharding/hash-primitives.ts:139-152 | the deepest level with at most 2^64 nodes, at most 64, also from the memo |
| `RoutingHash.MaxDepthBoundsNodes` | packages/fokosdb/src/sharding/hash-primitives.ts:139-152 | a level is allowed exactly when it has at most 2^64 nodes |
| `RoutingHash.RoutingHashInterval` | packages/fokosdb/src/sharding/hash-primitives.ts:160-177 | an interval exactly for a node of the topology, with its bounds by ceiling division |
| `RoutingHash.IntervalIsDigits` | packages/fokosdb/src/sharding/hash-primitives.ts:160-181 | a hash is in the interval of a node exactly when its digits are the root and the path of the node |
| `RoutingHash.IntervalIsNotEmpty` | packages/fokosdb/src/sharding/hash-primitives.ts:139-181 | down to the depth limit an interval holds its own start |
| `RoutingHash.ChildrenTile` | packages/fokosdb/src/sharding/hash-primitives.ts:160-181 | the children of a node tile its interval without a gap |
| `RoutingHash.CompareRoutingHashes` | packages/fokosdb/src/sharding/hash-primitives.ts:195-203 | the byte compare is the order of the 64-bit values |
| `RoutingHash.NextRoutingHash` | packages/fokosdb/src/sharding/repartition-slice.ts:79-89 | the next 64-bit value with its carry, and none exactly after the last |
| `Popcount.PopcountIsCount` | packages/fokosdb/src/sharding/topology-codec.ts:149-153 | the masks and the product count the 1 bits of each 32-bit word |
| `Popcount.PopcountOfLowBits` | packages/fokosdb/src/sharding/topology-codec.ts:232-240 | the count of a masked word is the count of 1 bits below a position |
| `HashBitmap.HashRank1` | packages/fokosdb/src/sharding/topology-codec.ts:232-240 | the rank from the block index is the plain count of ones before the position |
| `HashBitmap.RankIndex` | packages/fokosdb/src/sharding/topology-encode.ts:438-451 | the written rank index is the count of ones at each block |
| `HashBitmap.ChildrenComeLater` | packages/fokosdb/src/sharding/topology-codec.ts:246-267 | a step from a split goes to a later position inside the bitmap |
| `HashBitmap.PositionsAreDistinct` | packages/fokosdb/src/sharding/topology-codec.ts:246-267 | different partitions of the tree have different positions |
| `HashBitmap.FindLeaf` | packages/fokosdb/src/sharding/topology-codec.ts:246-267 | the walk ends at a reached partition of the digits of the hash that is not split, or whose next position is cut; no position that it takes is cut |
| `HashBitmap.LeafIsLongest` | packages/fokosdb/src/sharding/topology-codec.ts:246-267 | the walk reaches exactly the prefixes of the digits up to the leaf |
| `HashBitmap.ReachesExactly` | packages/fokosdb/src/sharding/topology-codec.ts:246-267 | the walk reaches a path exactly when each partition before its steps is split and no position of its steps is cut |
| `HashBitmapEncoder.EncodeHashBitmap` | packages/fokosdb/src/sharding/topology-encode.ts:239-264 | the written bits are exactly the places of the scanned splits, in a bitmap of the right size |
| `HashBitmapEncoder.DecodedSplitsAreTheScan` | packages/fokosdb/src/sharding/topology-encode.ts:199-264 | a reader finds a partition split exactly when the scan held it |
| `HashBitmapEncoder.RankOfPlace` | packages/fokosdb/src/sharding/topology-encode.ts:216-264 | the rank of a place is the index of its node in the scan |
| `PromotedSection.InOrder` | packages/fokosdb/src/sharding/topology-codec.ts:273-282 | the check of the section is true exactly for strictly sorted entries |
| `PromotedSection.IsPromoted` | packages/fokosdb/src/sharding/topology-codec.ts:292-312 | exact and no are always correct, the list never answers maybe, and maybe is exactly the answer of the Bloom filter |
| `PromotedSection.Merge` | packages/fokosdb/src/sharding/topology-encode.ts:466-490 | the merge is the strictly sorted union of two sorted streams |
| `BloomFilter.LayerHas` | packages/fokosdb/src/shared/bloom-filter.ts:105-115 | true exactly when the bits of all the positions of the key are set |
| `BloomFilter.Layer.AddIfAbsent` | packages/fokosdb/src/shared/bloom-filter.ts:303-329 | sets exactly the bits of the key, in place, and counts the key exactly when the layer did not have it |
| `BloomFilter.BloomFilter.Add` | packages/fokosdb/src/shared/bloom-filter.ts:164-194 | present, full and added exactly under their conditions; the key is there after it unless the filter is full, no key is ever lost, also across a new layer, and the size limit holds |
| `BloomFilter.BloomFilter.HasKey` | packages/fokosdb/src/shared/bloom-filter.ts:196-203 | true for every key that was added |
| `RangeTopology.CutKeyIsInjective` | packages/fokosdb/src/sharding/topology-codec.ts:428-430 | two intervals of a view with one cut key are one interval |
| `RangeTopology.CountBoundaries` | packages/fokosdb/src/sharding/topology-codec.ts:393-410 | the binary search gives the count of boundaries at or below a key |
| `RangeTopology.IntervalRule` | packages/fokosdb/src/sharding/topology-codec.ts:436-453 | the nested scans give the specified target and stop at the sentinels at the latest |
| `RangeTopology.RuleIsHighest` | packages/fokosdb/src/sharding/topology-codec.ts:436-453 | the target has the highest rank that is not cut, and no target means that every rank is cut |
| `RangeTopology.RangePointLookup` | packages/fokosdb/src/sharding/topology-codec.ts:455-461 | the point lookup computes the specified target |
| `RangeTopology.RangeIntervalLookup` | packages/fokosdb/src/sharding/topology-codec.ts:468-489 | the interval lookup computes the specified target, or nothing for crossed segments |
| `RangeTopology.IntervalLookupIsDeepest` | packages/fokosdb/src/sharding/topology-codec.ts:468-489 | a result is the uncut interval of highest rank that holds the request; no result means that each such interval is cut |
| `RangeTopology.IntervalLookupEncloses` | packages/fokosdb/src/sharding/topology-codec.ts:468-489 | a result encloses every key of the hash key in the requested interval |
| `RangeTopology.PointIsOneKeyInterval` | packages/fokosdb/src/sharding/topology-codec.ts:455-489 | the point lookup is the lookup of the interval of that one key |
| `RangeTopology.CrossedIntervalIsEmpty` | packages/fokosdb/src/sharding/topology-codec.ts:468-489 | an interval whose segments cross holds no key |
| `HashArena.HashTopology.Create` | packages/fokosdb/src/sharding/hash-topology.ts:59-64 | a new router knows only its root |
| `HashArena.HashTopology.FromSnapshot` | packages/fokosdb/src/sharding/hash-topology.ts:66-73 | a restored router knows the paths of its snapshot, and is under its cap exactly when the snapshot is |
| `HashArena.RestoredArenaExceedsItsCap` | packages/fokosdb/src/sharding/hash-topology.ts:66-73 | a router that is restored with the cap 1 from a concrete snapshot and finds a leaf below that cap |
| `HashArena.HashTopology.ToSnapshot` | packages/fokosdb/src/sharding/hash-topology.ts:84-92 | the snapshot knows exactly the paths of the router |
| `HashArena.HashTopology.FindLeaf` | packages/fokosdb/src/sharding/hash-topology.ts:99-113 | the depth of the longest known prefix of the digits, never above a cap that holds |
| `HashArena.HashTopology.UpdateFromHint` | packages/fokosdb/src/sharding/hash-topology.ts:121-148 | adds exactly prefixes of the digits of that hash, stops only at the cap or at a full arena, and keeps the cap |
| `HashArena.HashTopology.Invalidate` | packages/fokosdb/src/sharding/hash-topology.ts:156-175 | forgets exactly the subtree at that depth of that hash |
| `HashArena.AddBlock` | packages/fokosdb/src/sharding/hash-topology.ts:121-148 | a new block makes one path known and moves no other block |
| `HashArena.ClearSlot` | packages/fokosdb/src/sharding/hash-topology.ts:156-175 | a cleared slot forgets exactly the paths through it |
| `HashArena.BlocksAreDistinct` | packages/fokosdb/src/sharding/hash-topology.ts:121-148 | different known paths have different blocks |
| `SkIntervals.IntersectionIsComplete` | packages/fokosdb/src/sharding/sk-interval.ts:16-29 | a child that does not intersect the interval holds no key of it |
| `SkIntervals.IntersectsExactly` | packages/fokosdb/src/sharding/sk-interval.ts:16-29 | a child that is not empty intersects exactly when one of its keys is below the upper bound and one is at or above the lower one |
| `SkIntervals.ClipIsExact` | packages/fokosdb/src/sharding/sk-interval.ts:36-57 | the clipped interval selects exactly the keys of the interval inside the child |
| `SkIntervals.FullyBeforeOwesNothing` | packages/fokosdb/src/sharding/sk-interval.ts:69-80 | a child that is fully before the cursor owes no key |
| `SkIntervals.FullyBeforeExactly` | packages/fokosdb/src/sharding/sk-interval.ts:69-80 | a child that is not empty is fully before the cursor exactly when each of its keys is |
| `SkIntervals.CursorBeforeChildOwesAll` | packages/fokosdb/src/sharding/sk-interval.ts:69-89 | a cursor outside a child that is not behind it leaves the whole child owed |
| `SkIntervals.BoundaryCursorIsExact` | packages/fokosdb/src/sharding/sk-interval.ts:99-109 | the boundary cursor owes exactly the keys beyond the child |
| `SkIntervals.NormalizeIsExact` | packages/fokosdb/src/sharding/sk-interval.ts:116-160 | the interval of a condition selects exactly the keys that satisfy it |
| `RangeFrontier.ProjectionIsExact` | packages/fokosdb/src/sharding/range-frontier.ts:69-95 | the projection on a hash key selects exactly the sort keys whose composite keys are in the interval |
| `RangeFrontier.PlanRangeFrontier` | packages/fokosdb/src/sharding/range-frontier.ts:138-209 | the visits are in scan order, each inside its target and its base and in the requested interval, and they cover each requested key of the bases |
| `RangeFrontier.PlanBase` | packages/fokosdb/src/sharding/range-frontier.ts:160-205 | the visits of one base: each meets the interval, and two that touch have different targets |
| `RangeFrontier.OneVisitPerKey` | packages/fokosdb/src/sharding/range-frontier.ts:138-209 | a sort key lies in at most one visit |
| `RangeFrontier.DeepestExactly` | packages/fokosdb/src/sharding/range-frontier.ts:160-205 | from the base and the learned slices alone: the visit that is planned for a key goes to the deepest descendant that holds it exactly when, for each descendant with the whole segment of the base, a slice of the overlay holds the key and is as deep |
| `RangeFrontier.DeepestUnlessWhole` | packages/fokosdb/src/sharding/range-frontier.ts:160-205 | a descendant that is deeper than the target of a visit and holds a key of it holds the whole segment of the base |
| `RangeFrontier.OverlayOfDescendants` | packages/fokosdb/src/sharding/range-frontier.ts:112-122 | a learned descendant is in the overlay exactly when it does not hold the whole segment of its base |
| `RangeFrontier.WholeDescendantIsPassedOver` | packages/fokosdb/src/sharding/range-frontier.ts:112-122 | for a concrete base and a concrete learned slice, every planned visit goes to the base, and the target is not the deepest |
| `QueryPages.LeafPage` | packages/fokosdb/src/shared/query/query-collector.ts:33-98 | the page of a leaf is honest: a prefix of the ordered scan within its budgets, with a cursor that owes exactly the rest; a page with a cursor stops before a row of the scan that does not fit what is left of the item, evaluated-byte or response budget |
| `QueryPages.TotalsShowTheMatches` | packages/fokosdb/src/shared/query/query-collector.ts:65-98 | the totals of a page are the count of the matched rows, with projection their items in order and the bytes of these, and the evaluated bytes of all rows |
| `QueryPages.PagesAreOneScan` | packages/fokosdb/src/server/do-partition.ts:1910-1989 | the items of all pages together are the items of one ordered scan, for any budgets and any plans |
| `QueryPages.PageMoves` | packages/fokosdb/src/shared/query/query-collector.ts:65-98 | a page that starts with budgets that fit every stored row, and that goes on, moves its cursor forward |
| `QueryPages.ClientBudgetFits` | packages/fokosdb/src/client/db.ts:1379-1385 | the budgets at the start of a page of the client fit every row that can be stored |
| `QueryPages.PagesAreFinite` | packages/fokosdb/src/client/db.ts:1379-1385 | following the cursors of one sub-query ends: at most as many pages as rows that are owed and edges of visits that are ahead, and one more |
| `QueryRequests.QueryPage` | packages/fokosdb/src/client/db.ts:1379-1505 | a page of several sub-queries with one shared budget reports a prefix of what they owe in their order, its cursor owes exactly the rest, and each next page starts nearer to the end, also when a later sub-query started with the rest of the budget; a page with a cursor stopped because a budget is spent, or because the next row does not fit what is left of it |
| `QueryRequests.PagesAreOneScanOfAll` | packages/fokosdb/src/client/db.ts:1379-1505 | all pages together are one scan of each sub-query after the other, none skipped and none repeated |
| `QueryRequests.PagesEnd` | packages/fokosdb/src/client/db.ts:1379-1505 | the pages of a request end |
| `QueryPages.OversizedRowRepeats` | packages/fokosdb/src/shared/query/query-collector.ts:65-98 | of the page contract alone: a page that stands before a row above its evaluated-byte budget, which no page of the client does, returns its own cursor |
| `QueryWalk.WalkRangeVisits` | packages/fokosdb/src/server/do-partition.ts:1910-1989 | the page over all visits is as honest as the pages of its parts, with the visit budget; a page that evaluated no row and goes on ends at an edge of a visit; a page with a cursor stopped because a budget or the visits are spent, or because the next row does not fit |
| `QueryWalk.ClippedScan` | packages/fokosdb/src/server/do-partition.ts:1891-1904 | a clipped request scans in its visit exactly what the request owes there |
| `QueryWalk.PartStopIsHonest` | packages/fokosdb/src/server/do-partition.ts:1940-1989 | the cursor of a part is a correct cursor of the page |
| `QueryWalk.BoundaryIsHonest` | packages/fokosdb/src/server/do-partition.ts:1940-1989 | the boundary cursor after a visit owes exactly the later parts, and it is a move |
| `QueryWalk.PlanIsWalkable` | packages/fokosdb/src/sharding/range-frontier.ts:138-209 | the visits of a plan are visits that the walk can take |
| `QueryWalk.PageBudget.Consume` | packages/fokosdb/src/shared/query/page-budget.ts:43-58 | the budget that is left after one part |
| `KeyCodec.Compare` | packages/fokosdb/src/sharding/key-codec.ts:103-111 | the sign is the byte order, and zero only for equal keys |
| `KeyCodec.SuccessorIsExact` | packages/fokosdb/src/sharding/key-codec.ts:141-160 | the keys below the successor are those below the prefix and those that have it |
| `KeyCodec.IncrementLastByte` | packages/fokosdb/src/sharding/key-codec.ts:141-155 | the loop gives the successor bytes, and none exactly for bytes of only 0xFF |
| `KeyCodec.BeginsWithInterval` | packages/fokosdb/src/sharding/sk-interval.ts:141-149 | a key is in the `begins_with` interval exactly when it has the prefix, also for prefixes of only 0xFF |
| `KeyCodec.SuccessorIsLeast` | packages/fokosdb/src/sharding/key-codec.ts:141-160 | the successor is the least bound above every key with the prefix |
| `KeyCodec.ShortestSeparator` | packages/fokosdb/src/sharding/key-codec.ts:203-213 | a separator above `lo` and at most `hi`, and none is shorter |
| `KeyCodec.ShortestCompositeSeparator` | packages/fokosdb/src/sharding/key-codec.ts:229-234 | the same for composite keys |
| `KeyCodec.CompositeIsTotalOrder` | packages/fokosdb/src/sharding/key-codec.ts:219-221 | the composite order is total, irreflexive, asymmetric and transitive |
| `Utf8.Utf8KeepsOrder` | packages/fokosdb/src/sharding/key-codec.ts:166-195 | UTF-8 byte order is code-point order (section 1 of RFC 3629) |
| `Utf8.Utf8KeepsPrefix` | packages/fokosdb/src/sharding/key-codec.ts:166-195 | the bytes begin with other bytes exactly when the text begins with the other text |
| `Utf8.Utf8IsInverse` | packages/fokosdb/src/sharding/key-codec.ts:95-101 | the decoder accepts only what the encoder makes (section 3 of RFC 3629) |
| `PublicKeys.DecodeOfEncode` | packages/fokosdb/src/sharding/key-codec.ts:53-101 | a key comes back from its bytes exactly when it is not a text that starts with U+FEFF |
| `PublicKeys.ByteOrderMarkIsLost` | packages/fokosdb/src/sharding/key-codec.ts:95-101 | a concrete text that loses its first character |
| `PublicKeys.EncodeIsInjective` | packages/fokosdb/src/sharding/key-codec.ts:53-85 | different keys have different bytes, and none has the bytes of the absent key |
| `PublicKeys.PublicSuccessorIsExact` | packages/fokosdb/src/sharding/key-codec.ts:176-195 | the keys of its type below the public successor are those below the prefix and those that begin with it |
| `PublicKeys.PublicSuccessorIsLeast` | packages/fokosdb/src/sharding/key-codec.ts:176-195 | the public successor is the least key of its type above every key that begins with the prefix |
| `PublicKeys.FindPointsSuccessor` | packages/fokosdb/src/sharding/key-codec.ts:176-195 | the loop over the code points gives the public successor of a text, and none exactly for a text of only U+10FFFF |
| `PublicKeys.NotBeginsWithIsComplement` | packages/fokosdb/src/client/fokos-std.ts:108-120 | the sub-queries select exactly the complement of the prefix, unless the key is binary and the prefix is a text of only U+10FFFF |
| `PublicKeys.NoSuccessorFamily` | packages/fokosdb/src/sharding/key-codec.ts:176-195 | which prefixes have no successor |
| `PublicKeys.BinaryKeyIsLost` | packages/fokosdb/src/client/fokos-std.ts:108-120 | a concrete binary key that the sub-queries miss |
| `PublicKeys.ComplementInScanOrder` | packages/fokosdb/src/client/fokos-std.ts:108-120 | the two sub-queries are in scan order in both directions |
| `RangeNames.CutLeavesValidText` | packages/fokosdb/src/sharding/partition-id.ts:119-152 | a valid UTF-8 string that is cut at any byte is valid before its incomplete tail of at most three bytes |
| `RangeNames.CutKeyIsText` | packages/fokosdb/src/sharding/partition-id.ts:166-184 | a cut text key keeps the readable form, with its tail as escapes |
| `RangeNames.IncompleteTailStart` | packages/fokosdb/src/sharding/partition-id.ts:138-152 | the walk back gives the start of the tail that a cut left incomplete |
| `RangeNames.Escape` | packages/fokosdb/src/sharding/partition-id.ts:101-112 | the slicing loop of the escape gives the escape of each code point in order |
| `RangeNames.ComponentRoundTrip` | packages/fokosdb/src/sharding/partition-id.ts:166-184 | a component gives its bytes back |
| `RangeNames.ComponentShape` | packages/fokosdb/src/sharding/partition-id.ts:166-184 | a component has no dot, and starts with a tilde only in the binary form |
| `RangeNames.ComponentIsNoSentinel` | packages/fokosdb/src/sharding/partition-id.ts:30-37 | no component starts as `~min` or `~max` do |
| `PartitionIds.DoNameIsInjective` | packages/fokosdb/src/sharding/partition-id.ts:187-209 | a DO name names one partition of one shard group |
| `PartitionIds.PartitionIdIsInjective` | packages/fokosdb/src/sharding/partition-id.ts:383-405 | an opaque ID names one hash or range partition |
| `PartitionIds.RangeBytesRoundTrip` | packages/fokosdb/src/sharding/partition-id.ts:333-381 | the bytes of a range ID decode to what was encoded |
| `PartitionIds.DecodeRangeIsCanonical` | packages/fokosdb/src/sharding/partition-id.ts:465-505 | only the encoded bytes of a range decode to it |
| `PartitionIds.EncodeRangeBytes` | packages/fokosdb/src/sharding/partition-id.ts:368-381 | the buffer holds exactly the specified bytes |
| `PartitionIds.HashId` | packages/fokosdb/src/sharding/partition-id.ts:516-540 | the ID and the name of a hash partition, refused exactly when a field does not fit |
| `PartitionIds.HashDescendantId` | packages/fokosdb/src/sharding/partition-id.ts:549-580 | the ID and the name of a descendant made as text are those of the longer path, refused exactly below the limit, for a range parent, or for an index above 255 |
| `BatchScan.CollectBatch` | packages/fokosdb/src/sharding/batch-scan.ts:57-109 | a page holds exactly the matching rows of the rows it scanned, within its limits, with the reason of its stop; it is refused exactly when it could read no row |
| `BatchScan.BuildMigrationPage` | packages/fokosdb/src/server/do-transaction-coordinator.ts:1973-2027 | the same contract for the ledger, exactly when both row budgets are positive or no row is left |
| `BatchScan.PagesAreOneScan` | packages/fokosdb/src/sharding/batch-scan.ts:57-109 | the rows of the pages are the matching rows of the table in order, none lost or repeated |
| `BatchScan.PagesAreFinite` | packages/fokosdb/src/sharding/batch-scan.ts:57-109 | the sequence of pages ends |
| `BatchAnswers.MergeBatchParts` | packages/fokosdb/src/shared/batch-merge.ts:36-65 | the joined answer says exactly what its parts say, with each outcome at its operation and its partition, and no index leaves the list; each operation of a lost part names the partition of the part |
| `BatchAnswers.LostPartIsInAnswer` | packages/fokosdb/src/shared/batch-merge.ts:48-62 | each operation of a lost part is in the joined answer with the partition of the part: this one for a local part, and the one that raised the error for a remote one |
| `BatchAnswers.Classify` | packages/fokosdb/src/shared/batch-failure.ts:37-58 | an error is rejected exactly when it is too large or not valid, unknown exactly for a remote part of a write that can have written, and else unprocessed, with its code |
| `BatchResponse.FitBatchResponse` | packages/fokosdb/src/shared/batch-response.ts:10-26 | a greedy split by operation order: kept bytes fit the limit or belong to operation 0, no dropped entry fits beside the kept ones, nothing is lost |
| `BatchTree.TreeKeepsOutcomes` | packages/fokosdb/src/shared/batch-merge.ts:36-73 | through any tree of merges, lost calls and trims, each outcome keeps its operation and its partition, and only a trim changes one, from found to unprocessed |
| `BatchTree.EachOperationIsAnswered` | packages/fokosdb/src/shared/batch-merge.ts:36-65 | each operation that the calls asked for has its outcome in the answer, no more and no fewer |
| `BatchTree.LostWriteIsUnknown` | packages/fokosdb/src/shared/batch-failure.ts:18-58 | by the rules of the classification, an operation that a handler wrote below a lost call is unknown |
| `BatchTree.WrittenIsSaid` | packages/fokosdb/src/shared/batch-failure.ts:18-58 | through any tree, an operation that is said to be applied was applied, and one that was applied, with or without its answer, is said to be applied or unknown |
| `BatchTree.NodeFitsItsLimit` | packages/fokosdb/src/server/do-partition.ts:900-914 | a node that trims answers within its limit, unless it keeps operation 0 alone |
| `BatchClient.JoinBatchAnswers` | packages/fokosdb/src/client/db.ts:416-472 | the client join says exactly what the settled calls say, with no internal code, over one list with one entry for each actor, and adds up the forwards and the row counts |
| `BatchClient.PlaceOutcomes` | packages/fokosdb/src/client/db.ts:1584-1623 | each position has an outcome of its own operation, or a defect exactly when there is none |
| `BatchClient.BatchGet` | packages/fokosdb/src/client/db.ts:1575-1625 | the whole read after its calls: each position has an outcome of its own key, or a defect exactly when no call answered it; when each key was answered no outcome is lost, and only the trim changes one; no result shows an internal code |
| `BatchClient.BatchWrite` | packages/fokosdb/src/client/db.ts:1654-1700 | the same for a write, with no trim and an unknown outcome for a defect |
| `BatchRetry.PartitionMetaJoin.Add` | packages/fokosdb/src/shared/partition-meta.ts:66-90 | an entry keeps its first index, the row counts of the list grow by the counts of the new entry, and the last reported size of the database stays |
| `BatchRetry.RetryBatch` | packages/fokosdb/src/client/fokos-std.ts:128-165 | at most `maxAttempts` calls, and fewer only when no item is left to send; each result is the combination of the answers its item got, with the partition it names in the joined list; the forwards and row counts are the sums of the calls |
| `BatchRetry.WriteEndsAsApplied` | packages/fokosdb/src/client/fokos-std.ts:64-81 | a write ends ok exactly when a call applied it, and unknown exactly when a call can have applied it and none said so |
| `BatchRetry.ReadKeepsLastAnswer` | packages/fokosdb/src/client/fokos-std.ts:36-56 | a read ends with its last answer |
| `BatchRetry.ReadSendsUnprocessed` | packages/fokosdb/src/client/fokos-std.ts:36-56 | a read sends an entry in a later call exactly when the call before sent it and answered that it was not processed |
| `BatchRetry.WriteSendsUnsettled` | packages/fokosdb/src/client/fokos-std.ts:58-81 | a write sends an entry in a later call exactly when the call before answered that it was not processed or can have been applied |
| `BatchRetry.ReadWithRetry` | packages/fokosdb/src/client/fokos-std.ts:36-56 | the whole read loop: with calls left no result is unprocessed, and the unprocessed keys are exactly the entries with such a result, in order |
| `BatchRetry.WriteWithRetry` | packages/fokosdb/src/client/fokos-std.ts:58-81 | the whole write loop: with calls left every result is applied or rejected, and the unprocessed operations are exactly the entries with another result, in order |
| `BatchRetry.SettledIsNotSentAgain` | packages/fokosdb/src/client/fokos-std.ts:58-81 | an applied or rejected operation is never sent again |
| `BatchCalls.RootsConserve` | packages/fokosdb/src/client/db.ts:1575-1625 | what the roots of a call answer to the client is what the handlers below them said, apart from the trims and the public codes |
| `BatchCalls.CallRead` | packages/fokosdb/src/client/db.ts:1545-1625 | a read over the trees of its roots: each position shows what a handler said of its own key, or the error of the lost call that carried it, or a trim, or a defect exactly when there is no outcome |
| `BatchCalls.CallWrite` | packages/fokosdb/src/client/db.ts:1627-1700 | the same for a write, with no trim |
| `BatchCalls.EachEntryEndsWithItsOwn` | packages/fokosdb/src/client/fokos-std.ts:128-165 | after any number of calls over trees that change from call to call, each entry has one result, and it is an outcome of its own operation in one of the calls |
| `BatchCalls.ReadEndsAsHandled` | packages/fokosdb/src/client/fokos-std.ts:36-56 | a read with retries ends with what the last call that sent the key says of it: the outcome of its handler, the error of the lost call, or a trim |
| `BatchCalls.WriteEndsAsHandled` | packages/fokosdb/src/client/fokos-std.ts:58-81 | a write with retries ends ok exactly when an answer that arrived says that it was applied, and then it was; an operation that a handler applied, with or without its answer, ends ok or unknown; so one that ends rejected or unprocessed was applied in no call |
| `BatchCalls.LostReplyIsUnknown` | packages/fokosdb/src/shared/batch-failure.ts:18-35 | a concrete write that a handler applied and whose answer was lost: the caller sees unknown |

## Left out

- Participant.ApplyOpAdvances: time-to-live, secondary indexes, size accounting and the outbox streams of a store write are not modelled.
- Coordinator.TransactionCoordinator.InitiateWrite: the operations hash is a number; the stored operations, key validation, partition resolution and the start of the drive are not modelled.
- Coordinator.TransactionCoordinator.StorePrepareAnswer: the text and the images of a rejection, which only the answer to the caller shows, are not modelled.
- Coordinator.TransactionCoordinator.StorePrepareError: of an error only its class is kept, which is all that the protocol reads.
- TwoPhaseCommit.RunKeeps: a coordinator does not split while it drives, and one clock that only moves forward stands for the clocks of all actors.
- TransactionProgress.CanAlwaysFinish: it says that a continuation finishes the transaction; that alarms and the network take it is not modelled.
- MigrationProgress.CanAlwaysComplete: the same holds for a repartition, and a range split waits for boundaries of its host.
- MigrationProgress.CleanedHoldsNothing: the host is the partition; a host without a cleanup hook keeps its rows.
- Coordinator.TransactionCoordinator.SweepExpired: the order of rows that completed in the same millisecond is free.
- SnapshotRead.ReadTransaction: the owner of a key does not move between the two phases, and the fast path for one partition is not modelled.
- SerialReads.CommittedReadIsSerial: a key that a single-partition transaction or a single write changed has no place in the order of timestamps, so its content is only that of the snapshot.
- SerialReads.FinishedIsInPrefix: that each call of a client gets an answer is not stated.
- QueryRequests.QueryPage: the checks of a cursor that the caller sends and the decoding of items are not modelled.
- OnlineMigration.ExactlyOneOwner: targets do not split again, and the forced debug operations, which break the protocol on purpose, have no action.
- RepartitionSteps.ServedPageHolds: the page budgets only decide where a page ends; the byte estimates of rows and the fence and metadata streams of the host are not modelled.
- RoutingHash.DepthMemo.MaxHashDepth: the default depth of a router, which is a heuristic in floating point, is not modelled.
- HashBitmap.FindLeaf: the header of a topology body and the merge of an old bitmap with new splits (`mergeHashBitmap`) are not modelled.
- BloomFilter.BloomFilter.Add: the hash is any function, and the sizes of a layer, which come from logarithms in floating point, are any function of its index; snapshots and the error rate are not modelled.
- RepartitionFlow.RepartitionTarget.InitAsTarget: the identity that it writes is one flag, and the alarm and the deadlines of the record are not modelled.
- RangeTopology.CountBoundaries: the boundaries are a sequence of keys; their packed bytes and the checks of `parseRangeBody` are not modelled.
- RangeNames.ComponentRoundTrip: base64url is any injective encoding without a dot and a tilde.
- PartitionIds.PartitionIdIsInjective: the same encoding stands for the two parts of a range ID, and the hex reader of `partitionIdToBytes` is not modelled.
- KeyPairMap.Table.Set: the hash of a pair is any function, so xxHash is not modelled.
- QueryWalk.WalkRangeVisits: each part answers by the same contract that the walk keeps, so the six calls that run beside each other are one after the other here.
- BatchTree.EachOperationIsAnswered: the read and write handlers of a leaf answer each operation of their request; their code is not modelled.
- BatchTree.LostWriteIsUnknown: that a handler wrote nothing before an error of the other classes is taken from the comments of the classification.
- QueryPages.PagesAreFinite: the edges are those of all the plans that the pages used, because a later page can be planned over another topology.
- BatchAnswers.Classify: the error identifiers, which name an error in the log, are not modelled.
- BatchClient.PlaceOutcomes: when an answer wrongly has two outcomes for one operation, which of them the source keeps is not stated, and an outcome of an operation outside the request is ignored.
- BatchClient.BatchGet: decoding of a found item is not modelled.
- BatchClient.BatchWrite: condition-failure images and their cap are not modelled.
- BatchCalls.CallRead: the source carries the index of a partition through, and here it is found again in the joined list, where each partition has one entry.
- BatchRetry.RetryBatch: the wait between two calls has no effect on the result and is not modelled.
- Expression compilation, projections, conditions, materialization export and the runtime dispatch would add other components.
- Route caches, the scheduler, alarms, metrics, configuration merging and error tables would add only easy members.
