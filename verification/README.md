# Verified model of the database's concurrency core

The database keeps several versions of a tuple: the newest on the heap page, older
ones in an undo log. A transaction gets an XID when it begins and a commit sequence
number (CSN) when it commits. A snapshot is a CSN and a command id. Readers never
lock tuples. Writers wait for each other on a latch held by every transaction for its
whole life. This project models that core, the latch under it, the two codecs and the
in-place structures beside it, and proves what they promise.

Three layers repeat throughout. Code that changes state is a class or an array method
whose contract states the new state. That state is given by a function, or by steps of
a state machine in which any number of workers interleave. The theorems are about the
functions and about every run of the machines. Every induction is written out: lemmas
switch automatic induction off.

## The files

| file | what it models |
|---|---|
| `Registry.dfy` | the transaction tables (XID and CSN counters, history, XID to worker, worker slots), one atomic section a step, and their invariant |
| `TransactionFates.dfy` | how far a transaction has come and how it ended, as tables and objects show it |
| `Snapshots.dfy` | the verdict of a snapshot on another transaction, over every run of the tables |
| `Waiting.dfy` | `WaitTransactionEnd` and `wait_tnx_end`, one shared read at a time, interleaved with the tables |
| `TransactionManager.dfy` | the transaction manager as a class, each method equal to a list of table steps |
| `HeapVersions.dfy` | versions, undo records, the choice of a version, writing and undoing |
| `Database.dfy`, `DatabaseInvariant.dfy`, `DatabaseSteps.dfy`, `DatabaseTheorems.dfy` | the whole: workers that begin, read, write, wait, commit and abort over one page, its invariant, and the guarantees |
| `DatabaseAborts.dfy` | what an abort leaves on the page, with others writing meanwhile |
| `CommitOrder.dfy` | the versions of a slot in commit order, and what is read among them |
| `StatementSnapshots.dfy` | the snapshots of a transaction's statements, and what it reads of others while it writes |
| `WrittenData.dfy` | what is written is read: the data of updates and inserts, and deletes |
| `WriteConflicts.dfy` | what a transaction writes over: only what its snapshot sees |
| `DatabaseRaces.dfy` | the write after a wait, which the code does not guard: what it does to versions, reads and rollbacks |
| `CodeRuns.dfy` | the system with that write as the code has it, and which of its runs are runs of the system with the test |
| `DatabaseRuns.dfy` | runs of the code to the states in which it falls short |
| `HeapTable.dfy` | the page, the undo log and the scan as classes |
| `LatchWord.dfy` | the 32-bit latch word on bits and on fields |
| `LockList.dfy` | the intrusive wait list and the loop of `wakeup` that deletes while it iterates |
| `Latch.dfy`, `LatchInvariant.dfy`, `LatchTheorems.dfy` | the latch protocol, one atomic operation a step, for any number of workers |
| `LatchWakeups.dfy`, `LatchLostWakeup.dfy` | who wakes whom: when no waiter is forgotten, and a run in which one is |
| `LatchPointers.dfy` | the same protocol on the shared list nodes |
| `LatchFamily.dfy`, `LatchFamilyTheorems.dfy`, `LatchFamilyRuns.dfy` | any number of latches sharing one record per worker |
| `LatchFamilyPointers.dfy` | the lists of all latches on the one node of each worker |
| `Bytes.dfy` | little- and big-endian integers, two's complement |
| `NullBitmap.dfy`, `TupleCodec.dfy`, `HeapTupleCodec.dfy` | tuples as bytes |
| `PacketCodec.dfy`, `Network.dfy` | packets as bytes, the bounded writer and reader, the connection |
| `HeapPage.dfy` | the slotted page as 8192 bytes |
| `CacheEntryList.dfy` | the intrusive lists of the buffer manager |

## What the code does that its comments do not say

- After `wait_tnx_end` returns, `UpdateTuple` and `DeleteTuple` lock the page again and
  write without testing its XID once more (HeapTable.cpp:212-219, 350-354). Call such a
  write a race if the test would fail. The system of `Database.dfy` makes the test, and
  `CodeRuns.dfy` does not. A run of the code is a run of the system if and only if no
  write in it races (`CodeRuns.CodeRunsAgree`), so every guarantee below holds in each
  state the code gets to before its first race, and that race happens in a reachable
  state, over a version that was not the one scanned (`CodeRuns.FirstRace`,
  `DatabaseRaces.SameXidIsSameVersion`). What a race then does:
  - To the versions of the slot: an update puts its own over the scanned one, and loses
    exactly the versions above that; a delete puts its own over all of them, and loses
    none (`DatabaseRaces.UntestedWriteVersions`, `DatabaseRaces.UntestedWriteLoses`).
  - To reads: after an update a worker's read is unchanged if and only if no version
    above the scanned one is in its view. After a delete a read changes if and only if it
    had found the slot deleted, and then the deleted tuple comes back, because undo
    records are followed without looking at the flag (HeapTableScan.cpp:119-125). Both
    hold for every worker, the writer and owners of the page tuple among them
    (`DatabaseRaces.UntestedUpdateReads`, `DatabaseRaces.UntestedDeleteReads`,
    `DatabaseRaces.UntestedWriteReads`; the runs are `DatabaseRuns.ReadIsNotRepeated` and
    `DatabaseRuns.DeletedTupleReturns`).
  - To rollbacks: another open transaction can still roll back if and only if the page
    was not its own (`DatabaseRaces.UntestedWriteRollback`). Otherwise its abort throws
    "can not undo update: tuple was concurrently modified", or, over a delete, silently
    restores nothing (`DatabaseRaces.UntestedWriteBreaksUndo`;
    `DatabaseRuns.WriteAfterWaitRace` is a run).
- A share request of the latch waits for a zero count, as an exclusive one does
  (LWLatch.cpp:50). Two share holders never coexist; `LatchTheorems.Exclusion` follows
  the code. The comment at line 24 describes shared holders.
- Each worker's semaphore is a `binary_semaphore` that starts at one permit
  (WorkerLock.cpp:5). A waker can release it while that permit is still there, so the
  value two is reachable, one more than such a semaphore may hold
  (`LatchTheorems.SemaphoreCanReachTwo`). `LatchTheorems.TwoPermitsExactly` says when: a
  worker was taken for wakeup, has acquired nothing since, and every release owed to it
  has been done. The model counts, and `LatchTheorems.PermitConservation` bounds the
  count by two, also when any number of latches share the record
  (`LatchFamilyTheorems.PermitsAddUp`).
- A release can arrive late: a waker marks a worker first and releases its semaphore
  afterwards (LWLatch.cpp:245-257). The worker may by then hold that latch and sleep in
  the queue of another, where the release lets it through unwoken
  (`LatchFamilyRuns.LateRelease`). Its loop then finds itself still waiting and takes
  another permit, and nothing is lost: permits add up across all latches.
- `wakeup` withdraws the permission to wake (UnlockWaiter) even when it took nobody
  (LWLatch.cpp:222-230), trusting that whoever it took will give it back. A worker that is
  queued when another unlocks can take the latch and leave the list before that other has
  locked it; then the wakeup finds the list empty, and the next worker to queue is never
  woken: it sleeps for ever though the latch is free (`LatchLostWakeup.WakeupIsLost`).
  Nothing else loses a wakeup: in every run in which each wakeup takes somebody, whoever is
  queued, some worker is still to free the latch, to try for it or to wake waiters
  (`LatchWakeups.NoLostWakeup`, `LatchWakeups.MutedOnlyByAnEmptyWakeup`).
- The assertion of `Unlock` at LWLatch.cpp:271 is about a second load of the word. It fails
  exactly if another worker has taken the latch exclusively in between
  (`LatchTheorems.ExclusiveBitMeansHeld`).
- `InsertTuple` serializes the tuple before its USN is known (HeapTable.cpp:112, 137),
  so an inserted tuple lies on the page with USN 0. A statement is isolated from its
  own inserts exactly when no earlier statement of the transaction wrote
  (`DatabaseTheorems.InsertIsolation`; `DatabaseRuns.OwnInsertIsRead` is a run where it
  reads one). An aborted insert stays on the page for ever and nobody can read it
  (`DatabaseAborts.AbortedInsertStaysUnreadable`), so an abort restores the page if and
  only if nothing was inserted (`DatabaseAborts.AbortRestoresPage`;
  `DatabaseRuns.AbortLeavesInsert` is a run where it does not).
- The page insert tests for the unpadded size but takes the padded one
  (HeapTable.cpp:125, 162). `HeapPages.TestMissesPadding` gives the exact condition
  under which the page survives and `HeapPages.PaddingCounterexample` a sequence of
  four inserts, the last of which spoils it.
- Serializing a heap tuple replaces its flags, so a Deleted flag is lost
  (`HeapTupleCodec.HeapTupleRoundTrip`, `HeapTupleCodec.HeapTupleLayout`).
- `IsRouge` cannot tell an unlisted cache entry from the only entry of a list
  (`CacheEntryLists.RougeInAList`).

## How the source was read

- Memory is sequentially consistent. `Barrier::Write` does nothing. Each atomic
  instruction, semaphore operation, mutex section or access under a lock is one step.
- `GetTransactionCsn` unlocks before it spins, as its comment says. Asking about an
  unknown XID inserts it as Invalid.
- In the tables the latch of a transaction is a flag: held from the constructor until
  the commit or abort releases it. The latch itself is modelled separately.
- `UpdateTuple` and `DeleteTuple` do not test the page XID again after waiting. In the
  system of `Database.dfy` a writer that comes back from its wait tests it again, and
  waits again if it differs. `CodeRuns.dfy` has the write without the test, and
  `DatabaseRaces.dfy` says what it does.
- The undo log is a map from USNs to records. A record takes any positive number of
  bytes, and its USN is the old size plus one.
- XIDs, CSNs and USNs are unbounded. The one page of the version model has any number
  of slots; its layout in bytes is modelled in `HeapPage.dfy`.
- The tuple codec is read on a little-endian host, and an item id as GCC lays out its
  bit fields. A pointer datum is given by the bytes from its target on. A read past the
  end of the bytes, which the code does not check, is an error value.
- `recv` and `send` may take any positive number of bytes.

## Model

| member | source | states |
|---|---|---|
| Registry.StepInv | src/server/trans/TransactionManager.cpp:39-134 | every section of begin, commit and abort keeps the table invariant, moves statuses only forward, and fixes new CSNs only at or above the counter |
| Registry.StepPhases | src/server/trans/TransactionManager.cpp:39-134 | after any step each worker's slot, latch and history entry agree with where its code stands |
| Registry.StepCsns | src/server/trans/TransactionManager.cpp:73-79 | CSNs taken or published stay pairwise distinct |
| Registry.AssignedBelowCounter | src/server/trans/TransactionManager.cpp:73-79 | a CSN taken by a committing worker is at least 5 and below the counter |
| Snapshots.RunInv | src/server/trans/TransactionManager.cpp:39-134 | the invariant and forward movement over whole runs |
| Snapshots.RegistryLaws | src/server/trans/TransactionManager.cpp:39-134 | in every reachable state an XID is registered exactly while in progress or committing, its worker's slot holds it, and published CSNs are distinct and below the counter |
| Snapshots.StatusOnlyAdvances | src/server/trans/TransactionManager.cpp:67-88 | a status moves only forward and a final one never changes |
| Snapshots.AnswerByCode | src/server/access/heap/HeapTableScan.cpp:67-81 | whatever the table, frozen is seen by all, codes 2 and 3 by none, 4 is waited out, a CSN is seen by the snapshots above it |
| Snapshots.AnswerIsSeen | src/server/access/heap/HeapTableScan.cpp:67-81 | whenever the tables answer, the answer is membership in the set of transactions with a CSN fixed below the snapshot |
| Snapshots.SeenStable | src/server/trans/TransactionManager.cpp:67-79 | that set does not change as the tables evolve |
| Snapshots.VerdictNeverChanges | src/server/access/heap/HeapTableScan.cpp:67-81 | over every interleaving a snapshot's answer about a transaction never changes, except for waiting at COMMITTING |
| Snapshots.LaterTransactionsUnseen | src/server/access/heap/HeapTableScan.cpp:67-81 | a transaction begun after the snapshot is never seen by it |
| Snapshots.CommitOrderPrefix | src/server/trans/TransactionManager.cpp:74-95 | a snapshot sees exactly the smaller CSNs, a larger snapshot sees more, and a published commit is seen by every later snapshot |
| TransactionFates.CodeOfThePhase | src/server/trans/TransactionManager.cpp:39-134 | in every run, the code recorded for a transaction at each point of its life: none, 2 while it runs or rolls back, 4 while it commits, then its CSN of at least 5, or 3 |
| TransactionFates.ObjectTellsTheFate | src/server/trans/TransactionManager.cpp:87-134 | a transaction object is latched exactly until its worker releases it after the end, and from then on tells how it ended and with which CSN |
| Waiting.FateByCode | src/server/access/heap/HeapTable.cpp:168-189 | of the codes found only 3 lets the writer go on, frozen and every CSN stop it |
| Waiting.KnowledgeIsStable | src/server/trans/TransactionManager.cpp:136-170 | no step of another worker falsifies what a waiter knows at its program point |
| Waiting.WaitReturnsAfterTheEnd | src/server/trans/TransactionManager.cpp:136-170 | on all exits and in every interleaving WaitTransactionEnd returns only once the status is final |
| Waiting.WaitOutcomeIsTheFate | src/server/access/heap/HeapTable.cpp:168-189 | wait_tnx_end never reaches its invalid-status branch; it retries only after an abort and fails only after a commit |
| Transactions.TransactionManager.constructor | src/server/trans/TransactionManager.cpp:17-19 | the initial tables satisfy the invariant |
| Transactions.TransactionManager.GetCurrentCSN | src/server/trans/TransactionManager.cpp:21 | the counter, above every published CSN |
| Transactions.TransactionManager.ProbeTransactionCsn | src/server/trans/TransactionManager.cpp:27-31 | one round of the loop: no answer exactly at COMMITTING; an unknown XID is inserted as Invalid |
| Transactions.TransactionManager.BeginNewTransaction | src/server/trans/TransactionManager.cpp:39-50 | equals three table steps; the new XID is fresh, in progress and in the worker's slot |
| Transactions.TransactionManager.CommitTransaction | src/server/trans/TransactionManager.cpp:52-96 | equals five table steps; the exception cannot happen; the status becomes the old counter |
| Transactions.TransactionManager.AbortTransaction | src/server/trans/TransactionManager.cpp:98-134 | equals three table steps; the exception cannot happen; the status becomes aborted |
| HeapVersions.ChooseNowIsChoose | src/server/access/heap/HeapTableScan.cpp:154-172 | the code's choice for a slot, when it need not wait, is the choice by settled verdicts |
| HeapVersions.ChooseNowExactly | src/server/access/heap/HeapTableScan.cpp:153-172 | for every log and history, of the versions of a slot the newest one not answered No decides: held up if its creator is committing, nothing if it is a deleted page tuple, else that version |
| HeapVersions.BlockedExactly | src/server/access/heap/HeapTableScan.cpp:67-81 | the choice is held up if and only if the newest version not answered No was created by another transaction that is committing |
| HeapVersions.FindVisibleIsWalk | src/server/access/heap/HeapTableScan.cpp:86-136 | the same for the walk along the undo chain |
| HeapVersions.FindVisibleExactly | src/server/access/heap/HeapTableScan.cpp:86-136 | the walk goes on past every version answered No and ends at the first that is not |
| HeapVersions.WalkFindsNewest | src/server/access/heap/HeapTableScan.cpp:86-136 | the walk returns the first visible version along the slot's undo chain, or none |
| HeapVersions.ChoiceIsNewestInView | src/server/access/heap/HeapTableScan.cpp:154-172 | what is picked for a slot is the newest of its versions in view, or nothing if that is a deleted page tuple |
| HeapVersions.ChainFalls | src/server/access/heap/HeapTableScan.cpp:89-133 | USNs strictly fall along a chain, so the walk ends |
| HeapVersions.VersionsFall | src/server/access/heap/HeapTableScan.cpp:89-133 | USNs fall from newer to older versions of a slot, so no two versions are the same |
| HeapVersions.UnseenIsTransparent | src/server/access/heap/HeapTable.cpp:247-279 | a version pushed by an unseen transaction changes nothing for the snapshot |
| HeapVersions.UndoRestoresUpdate | src/server/access/heap/undo/UndoApplierVisitor.cpp:44-68 | undoing an in-place update restores the page |
| HeapVersions.UndoRestoresDelete | src/server/access/heap/HeapTable.cpp:356-375 | undoing a delete restores the page |
| HeapVersions.UndoablePush | src/server/access/heap/HeapTable.cpp:247-279 | a pushed version keeps the transaction able to roll back, and to the same page |
| DatabaseSteps.TakeOk | src/server/access/heap/HeapTable.cpp:168-379 | every step of every worker keeps the invariant of the whole system, in which a writer tests the page XID again after a wait; holds of the code until its first race |
| DatabaseTheorems.PlayKeepsInv | src/server/access/heap/HeapTable.cpp:168-379 | and so does every run, with the same test after a wait; holds of the code until its first race |
| DatabaseTheorems.RepeatableRead | src/server/access/heap/HeapTableScan.cpp:54-172 | while the owner of a snapshot writes nothing, in this statement or later ones, any run of the others, each writing only under the XID test, leaves the version read for every slot the same; holds of the code until its first race |
| DatabaseTheorems.SameSnapshot | src/server/trans/Transaction.cpp:14-30 | a statement after one that wrote nothing gets the same snapshot |
| StatementSnapshots.FirstSnapshotIsNow | src/server/trans/Transaction.cpp:17-19 | the first statement sees exactly the transactions whose CSN is fixed at that moment |
| StatementSnapshots.LaterSnapshot | src/server/trans/Transaction.cpp:20-24 | a later statement keeps the CSN; its command id is one past the last record |
| StatementSnapshots.StatementCanScanAll | src/server/access/heap/HeapTableScan.cpp:17-43 | a new statement can scan every slot |
| StatementSnapshots.OneSnapshotCsn | src/server/trans/Transaction.cpp:14-30 | over every run in which a transaction goes on running, with its own writes and statements, its snapshot has one CSN |
| StatementSnapshots.ReadIsOwnOrOthers | src/server/access/heap/HeapTableScan.cpp:54-172 | a statement reads the newest version of its own transaction that it sees, or else what its snapshot picks among the versions of others |
| StatementSnapshots.ReadsOfOthersRepeat | src/server/access/heap/HeapTableScan.cpp:54-172 | repeatable read for a transaction that writes: whatever it or others do, it reads at most one version of others in a slot, and the same while it sees none of its own; holds of the code until its first race |
| DatabaseTheorems.ScanReturnsTheChoice | src/server/access/heap/HeapTableScan.cpp:138-191 | a scan tests one version at a time with others in between, yet returns what one undisturbed read would; holds of the code until its first race |
| DatabaseTheorems.ScanOnlyWaitsForCommits | src/server/access/heap/HeapTableScan.cpp:67-76 | a scan is held up only by a creator that is committing, and never sees an invalid status |
| DatabaseTheorems.OnlyCommittedIsRead | src/server/access/heap/HeapTableScan.cpp:67-81 | a version of another transaction is returned only if that one committed with a CSN below the snapshot; holds of the code until its first race |
| DatabaseTheorems.NoLostUpdate | src/server/access/heap/HeapTable.cpp:208-215 | a write made under the XID test replaces exactly the version its scan returned |
| DatabaseTheorems.NoDirtyWrite | src/server/access/heap/HeapTable.cpp:208-215 | nobody passes the XID test on a slot that an open transaction wrote |
| DatabaseTheorems.WriterWaitsSoundly | src/server/access/heap/HeapTable.cpp:212-218 | a refused writer waits for another begun transaction and resumes only after its end |
| DatabaseTheorems.WaitsForTheWriter | src/server/access/heap/HeapTable.cpp:212-218 | a refused writer waits for the creator of the tuple then on the page |
| DatabaseTheorems.WaitEndsWithTheFate | src/server/access/heap/HeapTable.cpp:168-189 | a waiter gets its version back exactly when it asks and the target is aborted, and fails exactly when it asks and the target has a CSN; any other move brings it nearer the end |
| DatabaseTheorems.WaiterIsHeldUp | src/server/trans/TransactionManager.cpp:136-170 | a waiter is held up exactly by a target that is committing, when it asks, or by the target's latch |
| DatabaseTheorems.StatementIsolation | src/server/trans/Transaction.cpp:14-30 | among its transaction's updates and deletes a statement sees exactly those of earlier statements |
| DatabaseTheorems.InsertIsolation | src/server/access/heap/HeapTable.cpp:109-137 | a statement does not see its own insert if and only if no earlier statement wrote |
| DatabaseRaces.SameXidIsSameVersion | src/server/access/heap/HeapTable.cpp:208-219 | in every reachable state the page holds the scanned version if and only if its XID is the scanned one, so the test left out is exact |
| DatabaseRaces.TestedWriteIsTheStep | src/server/access/heap/HeapTable.cpp:212-279 | where the test would pass the write without it is the write of the system |
| DatabaseRaces.UntestedWriteBreaksUndo | src/server/access/heap/undo/UndoApplierVisitor.cpp:44-68 | where it would fail, undoing the overwritten update fails with the error, and undoing an overwritten delete does nothing |
| DatabaseRaces.UntestedWriteRollback | src/server/access/heap/HeapTable.cpp:216-219 | after a write without the test another open transaction can still roll back if and only if the page was not its own |
| DatabaseRaces.HeldIsAVersion | src/server/access/heap/HeapTable.cpp:208-215 | a version a scan returned is one of the versions of its slot for as long as it is held, and the newest exactly when the XIDs agree |
| DatabaseRaces.UntestedWriteVersions | src/server/access/heap/HeapTable.cpp:216-279 | after a write without the test the versions of the slot are the new one, then after an update the scanned one and what lies below it, after a delete all there were |
| DatabaseRaces.UntestedWriteLoses | src/server/access/heap/HeapTable.cpp:216-279 | so an update without the test loses a version if and only if it lies above the scanned one, a delete loses none |
| DatabaseRaces.UntestedUpdateReads | src/server/access/heap/HeapTableScan.cpp:86-172 | after an update without the test, what any running worker reads in the slot is unchanged if and only if no version above the scanned one is in its view |
| DatabaseRaces.UntestedDeleteReads | src/server/access/heap/HeapTableScan.cpp:119-125 | after a delete without the test a read changes if and only if the page tuple was deleted in its view, from nothing to that tuple |
| DatabaseRaces.UntestedWriteReads | src/server/access/heap/HeapTableScan.cpp:138-172 | both for the answer of the code's per-slot choice, whenever it need not wait |
| CodeRuns.CodeStepAgrees | src/server/access/heap/HeapTable.cpp:212-279 | a step of the code, with its write after a wait, is the same step of the system if and only if it does not race |
| CodeRuns.CodeRunsAgree | src/server/access/heap/HeapTable.cpp:212-379 | a run of the code is a run of the system, to the same state, if and only if no write in it races |
| CodeRuns.ReachedIsReachable | src/server/access/heap/HeapTable.cpp:212-379 | whatever holds in every reachable state of the system holds in every state the code gets to before its first race |
| CodeRuns.FirstRace | src/server/access/heap/HeapTable.cpp:216-219 | a run with a race has a first one, in a reachable state, by a worker whose scanned version is no longer on the page |
| CodeRuns.WokenByAnAbort | src/server/access/heap/HeapTable.cpp:168-219 | in the code a worker goes on to write after its wait exactly if the target was aborted |
| DatabaseRuns.WriteAfterWaitRace | src/server/access/heap/HeapTable.cpp:212-219 | a run of the code to a race over another open transaction's update, whose undo then fails |
| DatabaseRuns.ReadIsNotRepeated | src/server/access/heap/HeapTable.cpp:212-279 | a run of the code in which a reader has read a committed update and reads the version before it after a race |
| DatabaseRuns.DeletedTupleReturns | src/server/access/heap/HeapTable.cpp:350-375 | a run of the code in which a reader has found a tuple deleted and reads it after a race |
| DatabaseRuns.AbortLeavesInsert | src/server/access/heap/undo/UndoApplierVisitor.cpp:29-34 | a run of the code whose abort undoes everything and leaves the inserted slot |
| DatabaseRuns.OwnInsertIsRead | src/server/access/heap/HeapTable.cpp:109-137 | a run of the code in which a statement's scan returns the tuple that statement inserted |
| WriteConflicts.FirstUpdaterWins | src/server/access/heap/HeapTable.cpp:199-219 | below a running transaction's own version of a slot lie only its other versions and ones that committed before its snapshot; holds of the code until its first race |
| WrittenData.UpdateIsRead | src/server/access/heap/HeapTable.cpp:247-279 | an update's data is read, over every later run, by every reader that is to see it and nothing above it; holds of the code until its first race |
| WrittenData.InsertIsRead | src/server/access/heap/HeapTable.cpp:109-162 | so is an insert's; holds of the code until its first race |
| WrittenData.DeleteIsRead | src/server/access/heap/HeapTable.cpp:356-375 | whoever is to see a delete reads nothing, over every later run; holds of the code until its first race |
| CommitOrder.VersionsInCommitOrder | src/server/access/heap/HeapTable.cpp:208-279 | along the versions of any slot, CSNs of committed creators never rise from newer to older and fall strictly between transactions |
| CommitOrder.CommittedWritesStay | src/server/access/heap/HeapTable.cpp:247-279 | a version written by a transaction that commits stays among the versions of its slot over every run; holds of the code until its first race |
| CommitOrder.ReadIsTheLastCommit | src/server/access/heap/HeapTableScan.cpp:54-136 | the version read from another transaction is the last write of the one with the greatest CSN below the snapshot among all committed versions of the slot; holds of the code until its first race |
| DatabaseAborts.UndoNeverFails | src/server/access/heap/undo/UndoApplierVisitor.cpp:60-68 | where every write is made under the XID test, undo finds the page as the write left it, so its error cannot happen, and the old tuple fits |
| DatabaseAborts.StepKeepsImage | src/server/storage/undo/VirtualUndoLog.cpp:12-20 | of a transaction's own turns only an insert changes the page its rollback leads to, by adding its slot |
| DatabaseAborts.OthersWriteThroughImage | src/server/access/heap/HeapTable.cpp:109-379 | whatever step another worker takes, that page changes exactly where the page does and to the same tuples |
| DatabaseAborts.RunImage | src/server/trans/TransactionManager.cpp:98-103 | over every run it is what everybody else makes of it, plus the transaction's inserts |
| DatabaseAborts.AbortUnderConcurrency | src/server/trans/TransactionManager.cpp:98-103 | once everything is undone the page is as if the transaction had made only its inserts, whatever others did meanwhile; holds of the code until its first race |
| DatabaseAborts.AbortLeavesOthersTuples | src/server/trans/TransactionManager.cpp:98-103 | every slot that was there then holds the last tuple somebody else put into it, or the one it had; holds of the code until its first race |
| DatabaseAborts.AbortRestoresPage | src/server/trans/TransactionManager.cpp:98-103 | with no other writer the page is the old one plus one slot for each insert, so it is restored if and only if nothing was inserted |
| DatabaseAborts.RolledBackMeansGone | src/server/trans/TransactionManager.cpp:99-103 | with everything undone, a tuple left of the transaction carries no USN and nobody else can read it |
| DatabaseAborts.AbortedLeavesOnlyInserts | src/server/trans/TransactionManager.cpp:98-118 | in every reachable state a page tuple of an aborted transaction is an insert that nobody else can read |
| DatabaseAborts.AbortedInsertStaysUnreadable | src/server/access/heap/undo/UndoApplierVisitor.cpp:29-34 | the slot of an aborted insert stays exactly as it is over every run, and no other transaction ever reads anything there |
| HeapTables.HeapTable.InsertRecord | src/server/storage/undo/UndoLog.cpp:85-100 | the record is stored under the old size plus one |
| HeapTables.HeapTable.UpdateTuple | src/server/access/heap/HeapTable.cpp:212-279 | refused with nothing changed exactly when the page XID differs; else the page tuple gets exactly the new data and the undo log the scanned tuple, which is the system's update step |
| HeapTables.HeapTable.DeleteTuple | src/server/access/heap/HeapTable.cpp:338-379 | refused likewise; else the page tuple keeps its data and is marked, and the undo log gets it as it was, which is the system's delete step |
| HeapTables.HeapTable.InsertTuple | src/server/access/heap/HeapTable.cpp:129-164 | a new slot of exactly the data's length holds it, with no USN, which is the system's insert step |
| HeapTables.HeapTable.PerformUndo | src/server/access/heap/undo/UndoApplierVisitor.cpp:15-68 | an update or delete is given back, an insert left dead, only where the page tuple carries the record's USN; otherwise nothing changes, and for an update that is the one error |
| HeapTables.HeapTable.UndoAllRecords | src/server/storage/undo/VirtualUndoLog.cpp:12-20 | where the transaction can roll back no record fails and the page becomes the rollback image |
| HeapTables.RollbackIsReady | src/server/trans/TransactionManager.cpp:98-103 | a worker rolling back, in any state of the system, meets what that loop requires |
| HeapTables.HeapTableScan.FindVisibleTuplePage | src/server/access/heap/HeapTableScan.cpp:86-136 | the loop goes on past every version answered No; the first that is not is returned, or holds the scan up if its creator is committing |
| HeapTables.HeapTableScan.GetNextTuple | src/server/access/heap/HeapTableScan.cpp:138-191 | stops at the first slot that is not empty for the snapshot, where the newest version not answered No decides: held up if its creator is committing, else returned; the slots skipped hold nothing |
| HeapTables.HeapTableScan.EndScan | src/server/access/heap/HeapTableScan.cpp:193-196 | the scan is over and returns nothing from then on |
| LatchWords.AttemptAgrees | src/server/lock/LWLatch.cpp:36-60 | taking the latch on the bits is taking it on the fields: no flag is disturbed |
| LatchWords.ReleaseAgrees | src/server/lock/LWLatch.cpp:260-277 | so is releasing it, and the decision to wake |
| LatchWords.PublishAgrees | src/server/lock/LWLatch.cpp:222-243 | so is dropping up to three flags at once |
| LatchWords.SetListLocked | src/server/lock/LWLatch.cpp:62-76 | setting the list lock changes that bit alone |
| LatchWords.ClearListLocked | src/server/lock/LWLatch.cpp:78-81 | clearing it changes that bit alone |
| LatchWords.SetHasWaiters | src/server/lock/LWLatch.cpp:88 | setting HasWaiters changes that bit alone |
| LatchWords.ClearHasWaiters | src/server/lock/LWLatch.cpp:110-112 | clearing it changes that bit alone |
| LatchWords.SetUnlockWaiter | src/server/lock/LWLatch.cpp:180-181 | setting UnlockWaiter changes that bit alone |
| LatchWords.InitialAgrees | src/server/lock/LWLatch.cpp:34 | the initial word is free, with waking allowed and no waiters |
| LatchWords.WordLayout | src/server/lock/LWLatch.cpp:15-32 | which bit is which: flags from 29 up, an exclusive holder 2^28, a share holder one |
| LatchWords.LatchState.TryListLock | src/server/lock/LWLatch.cpp:62-76 | one round gets the list lock exactly if it was free |
| LatchWords.LatchState.ListUnlock | src/server/lock/LWLatch.cpp:78-81 | in place: the bit is cleared, nothing else changes |
| LatchWords.LatchState.AttemptLock | src/server/lock/LWLatch.cpp:38-60 | however often others change the word between its rounds, the loop takes effect at once on the word its last compare-and-swap found, and succeeds exactly on a zero count |
| LatchWords.LatchState.Publish | src/server/lock/LWLatch.cpp:222-243 | likewise, the loop drops exactly the three flags of the word found, HasWaiters only from an empty list |
| LatchWords.LatchState.Release | src/server/lock/LWLatch.cpp:260-279 | the count returns to zero, and wakeup is called exactly when waiters exist and waking is allowed |
| LockLists.PushTailLinks | src/server/lock/LockList.cpp:12-29 | PushTail appends an unlisted worker and changes no node outside the list |
| LockLists.DeleteUnlinks | src/server/lock/LockList.cpp:31-50 | Delete removes exactly the worker, unlinks its node, and changes no node outside the list |
| LockLists.DeleteAsserts | src/server/lock/LockList.cpp:34-47 | both assertions of Delete hold of a listed worker |
| LockLists.DeleteKeepsOthers | src/server/lock/LockList.cpp:31-50 | deleting from one list leaves any list over other nodes linked |
| LockLists.PushKeepsOthers | src/server/lock/LockList.cpp:12-29 | so does pushing |
| LockLists.WakeupTakesHeadOrAllSharers | src/server/lock/LWLatch.cpp:196-218 | a wakeup takes exactly the head if it is exclusive, else exactly all share waiters, both lists in order |
| LockLists.LockListHead.PushTail | src/server/lock/LockList.cpp:12-29 | in place, whatever the list: it is appended to |
| LockLists.LockListHead.Delete | src/server/lock/LockList.cpp:31-50 | in place, whatever the list: the worker is removed and its node unlinked |
| LockLists.LockListHead.IsEmpty | src/server/lock/LockList.hpp:15-17 | tells whether the list held is empty |
| LockLists.TakeWaiters | src/server/lock/LWLatch.cpp:190-218 | the loop, deleting while it iterates, leaves both lists doubly linked with exactly the workers to leave and to take, the taken marked and no foreign node changed |
| LatchInvariant.LatchStep | src/server/lock/LWLatch.cpp:83-280 | every atomic step of every worker keeps the latch invariant |
| LatchInvariant.LatchRunInv | src/server/lock/LWLatch.cpp:83-280 | and so does every run of any number of workers |
| LatchTheorems.Exclusion | src/server/lock/LWLatch.cpp:15-60 | the count is 2^28 for each exclusive holder plus one for each share holder, and there is at most one holder |
| LatchTheorems.BitsOfTheHolder | src/server/lock/LWLatch.cpp:260-269 | the subtraction of an unlock borrows nothing from the flags |
| LatchTheorems.FreeMeansUnheld | src/server/lock/LWLatch.cpp:42-53 | the count is zero exactly when nobody holds the latch |
| LatchTheorems.FlagAgreement | src/server/lock/LWLatch.cpp:62-114 | at most one worker holds the list lock, and while it is free HasWaiters is set exactly when the list is not empty |
| LatchTheorems.NodeOwnership | src/server/lock/LWLatch.cpp:83-139 | a worker's node is in at most one place among all lists, in none if it is NotWaiting or about to queue itself |
| LatchTheorems.WakersAreDisjoint | src/server/lock/LWLatch.cpp:190-257 | concurrent wakeups hold disjoint workers, none of them still queued |
| LatchTheorems.PermitConservation | src/server/lock/LWLatch.cpp:125-187 | semaphore plus permits in hand plus releases owed is one, plus one for a wakeup not yet consumed |
| LatchTheorems.SemaphoreCanReachTwo | src/server/lock/WorkerLock.cpp:5 | a reachable state holds two permits |
| LatchTheorems.TwoPermitsExactly | src/server/lock/LWLatch.cpp:145-187 | a semaphore holds two permits if and only if its worker was taken for wakeup, has acquired nothing since, and is owed no release |
| LatchTheorems.AssertionsHold | src/server/lock/LWLatch.cpp:78-267 | the assertions at lines 80, 211, 220 and 267 hold in every reachable state |
| LatchTheorems.ExclusiveBitMeansHeld | src/server/lock/LWLatch.cpp:260-271 | the bit of an exclusive holder is set exactly while somebody holds the latch exclusively |
| LatchTheorems.OnlyLocksBlock | src/server/lock/LWLatch.cpp:62-187 | a worker is held up exactly by a taken list lock or an empty semaphore |
| LatchTheorems.SleepersAreOwed | src/server/lock/LWLatch.cpp:170-178 | a worker asleep on an empty semaphore is queued or still owed a release |
| LatchTheorems.WakeupTakesItsPlan | src/server/lock/LWLatch.cpp:193-243 | whatever others do between its steps, a scanning waker carries out what the sequential loop would |
| LatchTheorems.WakeupIsAtomic | src/server/lock/LWLatch.cpp:190-243 | from locking the list to publishing it takes and leaves exactly what the list held when it was locked calls for |
| LatchWakeups.AttemptTakesTheFreeLatch | src/server/lock/LWLatch.cpp:38-60 | an attempt in either mode takes the latch exactly if nobody holds it |
| LatchWakeups.UnlockWakesExactly | src/server/lock/LWLatch.cpp:260-279 | an unlock goes on to wake exactly if HasWaiters and UnlockWaiter are set, and HasWaiters is set whenever somebody is queued |
| LatchWakeups.QueuedMode | src/server/lock/LWLatch.cpp:83-97 | a queued worker is waiting and recorded with the mode it asked for |
| LatchWakeups.MutedOnlyByAnEmptyWakeup | src/server/lock/LWLatch.cpp:222-243 | waking is forbidden with nobody on the way to permit it only through a wakeup that took nobody |
| LatchWakeups.NobodyIsForgotten | src/server/lock/LWLatch.cpp:141-280 | in every reachable latch, while somebody is queued, some worker is still to free the latch, to try for it or to wake, or waking is muted |
| LatchWakeups.NoLostWakeup | src/server/lock/LWLatch.cpp:141-280 | in every run in which each wakeup takes somebody, nobody queued is forgotten |
| LatchWakeups.MutedForGood | src/server/lock/LWLatch.cpp:170-243 | once muted with no wakeup under way, a latch stays so, and whoever sleeps in its list sleeps for ever |
| LatchLostWakeup.WakeupIsLost | src/server/lock/LWLatch.cpp:190-243 | a reachable latch that is free while a worker sleeps in its list for ever |
| LatchPointers.PointersFollow | src/server/lock/LWLatch.cpp:196-257 | each step's list operations on the shared nodes carry the waiters and all private lists along, disjoint and linked |
| LatchPointers.PointersHoldTheLists | src/server/lock/LWLatch.cpp:83-257 | over every run the pointers followed lead to nodes and hold exactly the lists of the protocol |
| LatchPointers.NotWaitingIsUnlinked | src/server/lock/LWLatch.cpp:245-257 | a worker others see as NotWaiting has an unlinked node |
| LatchPointers.ScanReadsNext | src/server/lock/LockList.cpp:52-65 | the iterator's saved next id is the next waiter of the scan |
| LatchFamilies.SplitStep | src/server/lock/LWLatch.cpp:83-280 | a step in one of any number of latches that share their workers' records is a step of that latch by itself and leaves the others as they are; permits add up |
| LatchFamilies.RunSplits | src/server/lock/LWLatch.cpp:83-280 | every run of all latches splits into a run of each |
| LatchFamilyTheorems.OneLatchAtATime | src/server/lock/LWLatch.cpp:141-188 | a worker is inside Lock, Unlock or wakeup of at most one latch |
| LatchFamilyTheorems.FamilyExclusion | src/server/lock/LWLatch.cpp:15-114 | each latch excludes, counts and flags as it does alone |
| LatchFamilyTheorems.OneNodeManyLatches | src/server/lock/LWLatch.cpp:83-139 | a worker's one node is in at most one list of all latches, and then of the latch it is inside |
| LatchFamilyTheorems.PermitsAddUp | src/server/lock/LWLatch.cpp:125-187 | one semaphore for all latches: its permits, those in hand and the releases owed by wakers of every latch make one, plus one for a wakeup not yet consumed; two permits exactly as for one latch |
| LatchFamilyTheorems.FamilyBlocks | src/server/lock/LWLatch.cpp:62-187 | sharing the record holds nobody up: still exactly a taken list lock or an empty semaphore |
| LatchFamilyTheorems.FamilySleepersAreOwed | src/server/lock/LWLatch.cpp:170-178 | a worker asleep on an empty semaphore is queued in that latch or owed a release by a waker of some latch |
| LatchFamilyRuns.LateRelease | src/server/lock/LWLatch.cpp:245-257 | a reachable state in which a release owed by a waker of one latch wakes its worker in the queue of another |
| LatchFamilyPointers.FamilyFollows | src/server/lock/LWLatch.cpp:196-257 | each step's list operations on the shared nodes carry the lists of all latches along |
| LatchFamilyPointers.SharedNodesHoldAllLists | src/server/lock/LWLatch.cpp:83-257 | over every run the one node of each worker holds all waiters and private lists of all latches, and is unlinked while the worker is NotWaiting |
| NullBitmaps.WriteBitmap | src/server/access/tuple/TupleSerializer.cpp:62-101 | the shifting-mask loop, starting one byte before the buffer, writes exactly the bitmap and nothing after it |
| NullBitmaps.BitmapReads | src/server/access/tuple/TupleSerializer.cpp:207-218 | the indexed reader finds a bit set exactly for an attribute that is not NULL |
| NullBitmaps.BitmapLayout | src/server/access/tuple/TupleSerializer.cpp:62-101 | bit i % 8 of byte i / 8, from the lowest, is set exactly for an attribute that is not NULL |
| TupleCodec.TupleSize | src/server/access/tuple/TupleSerializer.cpp:22-56 | the first pass computes the size and whether there are NULLs |
| TupleCodec.DataSizeExact | src/server/access/tuple/TupleSerializer.cpp:22-59 | that size is exactly the number of bytes written |
| TupleCodec.Serialize | src/server/access/tuple/TupleSerializer.cpp:16-158 | both passes on a buffer give the encoding, or the exception for an unknown width |
| TupleCodec.WriteAttr | src/server/access/tuple/TupleSerializer.cpp:111-154 | one attribute is written at the cursor and what is before it is kept |
| TupleCodec.Deserialize | src/server/access/tuple/TupleSerializer.cpp:200-235 | the loops give the decoding |
| TupleCodec.ExtractReads | src/server/access/tuple/TupleSerializer.cpp:161-198 | an attribute is read back where it was written, whatever follows |
| TupleCodec.ExtractExactly | src/server/access/tuple/TupleSerializer.cpp:161-198 | for any bytes, what is read of an attribute is what serializing it writes, and reading fails exactly for an unknown width or too few bytes |
| TupleCodec.TupleRoundTrip | src/server/access/tuple/TupleSerializer.cpp:22-235 | a serialized tuple deserializes to the same NULLs, with 0 for each, and the same stored values, for every descriptor and NULL pattern |
| TupleCodec.ByValueExact | src/server/access/tuple/TupleSerializer.cpp:113-133 | a by-value attribute comes back unchanged exactly when it fits its width |
| TupleCodec.TupleLayout | src/server/access/tuple/TupleSerializer.cpp:22-158 | the bitmap if any attribute is NULL, then each attribute that is not at the sum of the earlier sizes |
| TupleCodec.AttrLayout | src/server/access/tuple/TupleSerializer.cpp:111-154 | a scalar byte by byte, a fixed attribute as it is, any other as a four-byte length, lowest first, that does not count itself, and the data |
| HeapTupleCodec.HeapTupleRoundTrip | src/server/access/heap/HeapTupleSerializer.cpp:11-42 | XID, undo pointer, NULLs and values come back; the flags become 2 if some attribute is NULL and 0 otherwise |
| HeapTupleCodec.HeapTupleLayout | src/server/access/heap/HeapPageTupleHeader.hpp:8-27 | XID, undo pointer and flags byte by byte; the flags word is 2 if some attribute is NULL and 0 otherwise, so the Deleted bit is never stored |
| HeapTupleCodec.FlagsAreSeparate | src/server/access/heap/HeapPageTupleHeader.hpp:8-13 | the tests for Deleted and for NULLs read bits 1 and 2 of byte 16, each whatever the other |
| HeapTupleCodec.SizeOnPage | src/server/access/heap/HeapTupleSerializer.cpp:11-14 | the size is the header's, the bitmap's if any is NULL, and the data's |
| PacketCodec.PayloadSizeExact | src/libmimi/src/serialization.cpp:17-102 | for every packet the size pass counts exactly the bytes written |
| PacketCodec.PayloadReads | src/libmimi/src/serialization.cpp:104-219 | each of the five payloads is deserialized to the packet it was serialized from |
| PacketCodec.PacketReads | src/libmimi/src/MimiClient.cpp:174-234 | one packet at the head of a stream is received as sent and the rest is left |
| PacketCodec.StreamRoundTrip | src/libmimi/src/MimiClient.cpp:162-234 | receiving the concatenated encodings of any list of packets below the 32-bit limit gives back the list |
| PacketCodec.PacketLayout | src/libmimi/src/serialization.cpp:88-102 | the type letter, the length plus four in four bytes, highest first, the payload |
| PacketCodec.TextLayout | src/libmimi/src/NetworkWriter.cpp:52-55 | a string is its length in four bytes and its characters; a NULL value is four bytes of ones |
| PacketCodec.PayloadLayout | src/libmimi/src/serialization.cpp:104-210 | the five payloads, field by field |
| PacketCodec.ReceivedIsSent | src/libmimi/src/MimiClient.cpp:174-234 | for any bytes, a packet is received exactly if they begin with one, and it is what its bytes are the serialization of; each failure has exactly its cause |
| Network.NetworkWriter.WriteBuffer | src/libmimi/src/NetworkWriter.cpp:57-62 | writes exactly the bytes, or refuses exactly when they pass the border |
| Network.NetworkWriter.WriteUint32 | src/libmimi/src/NetworkWriter.cpp:31-36 | appends the four bytes, highest first |
| Network.NetworkWriter.WriteInt64 | src/libmimi/src/NetworkWriter.cpp:45-50 | appends the eight bytes of the two's complement, highest first |
| Network.NetworkWriter.WriteString | src/libmimi/src/NetworkWriter.cpp:52-55 | appends length and bytes, or fails exactly when they pass the border |
| Network.CalculatePayloadSize | src/libmimi/src/serialization.cpp:17-86 | the size loops compute the payload size |
| Network.Serialize | src/libmimi/src/serialization.cpp:88-210 | a packet of any size is serialized in full: the bounds check never fires |
| Network.NetworkReader.ReadBuffer | src/libmimi/src/NetworkReader.cpp:63-68 | takes exactly the next bytes, or fails exactly past the border |
| Network.NetworkReader.ReadString | src/libmimi/src/NetworkReader.cpp:56-61 | takes exactly a length and that many bytes |
| Network.Deserialize | src/libmimi/src/serialization.cpp:113-219 | the five deserializers with their loops give the parse of the payload |
| Network.MimiClient.RecvBuffer | src/libmimi/src/MimiClient.cpp:76-87 | exactly the bytes asked for however recv cuts them up, or the exception |
| Network.MimiClient.ReceivePacket | src/libmimi/src/MimiClient.cpp:174-234 | closed, failed or got, as the incoming bytes determine, and the rest is left |
| Network.MimiClient.SendBuffer | src/libmimi/src/MimiClient.cpp:31-42 | all bytes in order, or a prefix and the exception |
| Network.MimiClient.SendPacket | src/libmimi/src/MimiClient.cpp:162-172 | the packet's encoding is appended to what was sent |
| HeapPages.InitOk | src/server/access/heap/HeapPage.cpp:83-88 | an initialised page is good, empty and has 8180 bytes free |
| HeapPages.InsertIsRead | src/server/access/heap/HeapTable.cpp:143-162 | with room for the padding the item id and the tuple are read back |
| HeapPages.InsertFrame | src/server/access/heap/HeapTable.cpp:143-162 | an insert changes no byte outside the LSN, its item id, its tuple and the bounds |
| HeapPages.PageLayout | src/server/access/heap/HeapPageHeader.hpp:10-20 | lower, upper and item ids in their bytes and bits |
| HeapPages.InsertLayout | src/server/access/heap/HeapTable.cpp:125-162 | the LSN, the Normal item id and the tuple an insert leaves, the tuple below the old upper by its size rounded up to eight |
| HeapPages.InsertKeepsPage | src/server/access/heap/HeapTable.cpp:125-162 | tuples stay disjoint and inside the page, the old ones are unchanged, the new one is appended, the free space falls by the padded size and an item id |
| HeapPages.TestMissesPadding | src/server/access/heap/HeapTable.cpp:125-162 | once the code's test has passed, the page stays good if and only if the padded size fits and the offset assertions hold |
| HeapPages.FreshPageHoldsInserts | src/server/access/heap/HeapTable.cpp:125-162 | any sequence of inserts from Init whose padded sizes fit keeps the page good and holding exactly those tuples |
| HeapPages.PaddingCounterexample | src/server/access/heap/HeapTable.cpp:125-162 | four inserts that pass the test and spoil the page |
| HeapPages.HeapPage.InitPage | src/server/access/heap/HeapPage.cpp:83-88 | in place: the page becomes good and empty |
| HeapPages.HeapPage.InsertTuple | src/server/access/heap/HeapTable.cpp:125-162 | in place: inserted exactly when the test passes; where it fits, the tuple is appended to a good page |
| HeapPages.HeapPage.GetTuple | src/server/access/heap/HeapPage.cpp:57-71 | the assertions hold and the tuple of the item id is read |
| CacheEntryLists.CacheEntryList.InsertMRU | src/server/storage/buffer/BufferManager.cpp:72-85 | cons |
| CacheEntryLists.CacheEntryList.RemoveEntry | src/server/storage/buffer/BufferManager.cpp:87-130 | delete; the assertions hold and the entry is left unlinked |
| CacheEntryLists.CacheEntryList.MoveMRU | src/server/storage/buffer/BufferManager.cpp:132-144 | move to front |
| CacheEntryLists.CacheEntryList.Promote | src/server/storage/buffer/BufferManager.cpp:310-314 | moving an entry between lists that share none keeps both valid and disjoint |
| CacheEntryLists.RougeInAList | src/server/storage/buffer/BufferManager.cpp:72-112 | a listed entry looks unlisted exactly when it is alone |

## Left out

- The ARC policy of the buffer manager and `PopTail`: entries join a second list without leaving the first (BufferManager.cpp:232, 449), and `PopTail` counts down twice, so list invariants do not hold of that code.
- Fairness of the latch: who of several gets a free latch is not decided by the code.
- Updates that move a tuple, undo of such updates, reads of moved tuples, and scans across pages: the version model has one page and in-place updates.
- Files, WAL, the record formats of the undo log, sockets, and the search for a page with free space.
- Item states other than Normal on the byte page, which only undo and pruning produce.
- DatabaseSteps.TakeOk: proved for writers that test the page XID again after a wait. CodeRuns.CodeStepAgrees says of which steps of the code it holds: all but races.
- DatabaseTheorems.PlayKeepsInv: the same test is made in every run. CodeRuns.CodeRunsAgree says of which runs of the code it holds: those without a race.
- DatabaseTheorems.RepeatableRead: false of a race; DatabaseRuns.ReadIsNotRepeated and DatabaseRuns.DeletedTupleReturns show it, and DatabaseRaces.UntestedWriteReads says exactly which reads change.
- DatabaseTheorems.ScanReturnsTheChoice: likewise, a race can change the choice while a scan holds its tuple, under the same condition.
- DatabaseTheorems.OnlyCommittedIsRead: that the version is not deleted is false after a race by a delete, exactly as DatabaseRaces.UntestedDeleteReads says.
- DatabaseTheorems.NoLostUpdate: speaks of the write under the test; a race replaces another version than the one scanned, by CodeRuns.FirstRace.
- DatabaseTheorems.NoDirtyWrite: likewise; DatabaseRuns.WriteAfterWaitRace overwrites an open transaction's version.
- CommitOrder.CommittedWritesStay: false of a race by an update, which loses exactly the versions above the scanned one, by DatabaseRaces.UntestedWriteLoses.
- CommitOrder.ReadIsTheLastCommit: false of the same races, when a lost version was in view.
- StatementSnapshots.ReadsOfOthersRepeat: false of a race, exactly as DatabaseTheorems.RepeatableRead.
- WrittenData.UpdateIsRead: false of a later race by an update over the version, which loses it, by DatabaseRaces.UntestedWriteLoses.
- WrittenData.InsertIsRead: likewise.
- WrittenData.DeleteIsRead: false of a later race over the deleted tuple, by DatabaseRaces.UntestedDeleteReads and DatabaseRaces.UntestedWriteLoses.
- WriteConflicts.FirstUpdaterWins: false of a race by a delete, which puts its version over ones its snapshot does not see; one by an update drops those instead.
- DatabaseAborts.UndoNeverFails: false of a race over an open transaction's version, by DatabaseRaces.UntestedWriteBreaksUndo.
- DatabaseAborts.AbortUnderConcurrency: for runs without a race; DatabaseRaces.UntestedWriteRollback says which transactions can still roll back after one.
- DatabaseAborts.AbortLeavesOthersTuples: likewise.
- Transactions.TransactionManager.ProbeTransactionCsn: one round of the loop, whose repetition at COMMITTING is the waiting step of the system; the lock's release() at line 34, which does not unlock, is read as an unlock.
- HeapTables.HeapTableScan.GetNextTuple: one page, and a creator that is COMMITTING is returned as Blocked instead of spun on.
- TupleCodec.Serialize: pointers are modelled by the bytes they lead to, so sharing of memory between a tuple and the buffer it was read from is not captured.
- Network.NetworkWriter.WriteString: what is in the buffer after a failed write is only bounded below.
- The lock-free list, the hash table, the parser, planner, executor, client and process start-up.
