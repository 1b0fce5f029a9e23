# A verified model of the stack-track skip list

The repository is a C implementation of a concurrent skip list with one lock per node, and of the stack-track scheme
that decides when a removed node may be given back to `free`. This project models its four connected parts in Dafny and
proves what each promises. `dafny verify dfyconfig.toml` checks everything.

## The parts

**The concurrent list** (`SkipListMachine` and the other `SkipList*` modules). The pure operations as a machine: any
number of threads, and one shared read, write or compare-and-swap per step, with the source's own program points,
`p_preds`/`p_succs` arrays and `highestLocked`. `SkipListInvariant` says what holds between any two steps, not only between
operations; `SkipListWrites` and `SkipListLinks` treat the writes to the list, `SkipListGuarantee` and `SkipListStability` what
one thread's step leaves true for another, `SkipListReads`, `SkipListSteps` and `SkipListPreservation` the steps themselves. The
results are in `SkipListTheorems`; in `SkipListLifetimes`, `SkipListSearches` and `SkipListMarks` (a node's life, and what a call
has read, over whole runs); in `SkipListLinearizability`, `SkipListCalls`, `SkipListHistory` and `SkipListMissedKey` (each call's
own instant, its own arguments, the sequential history that the calls make up, and the one wrong answer); in `SkipListRestarts`
(why a search starts over, and how long an attempt can take); and in `SkipListConservation`. A trace is a run with its moves, so
that a call's arguments are those of the move that began it. Three things set this list apart from a
textbook lazy list, and the proofs rest on each: removal clears the mark of its victim when validation fails (line 791),
sets the victim's links to NULL level by level while its predecessor is still locked (lines 783-786), and insertion links
bottom-up without locking its own new node (lines 498-501).

**The same list run by one thread** (`SequentialSkipList`). The code once more as methods on a heap of node objects, with
loops, locks and in-place writes, proved against one sequence of nodes per level.

**Reclamation** (`ReclaimMachine`, `ReclaimSafety`, `ReclaimTheorems`, `ReclaimPrecision`, `ReclaimWork`, `ReclaimProgress`, `ReclaimComposition`). The scanner of
`ST_scan_and_free` line by line, one access to another thread's record per step, interleaved with operations that run in
transactions (fast) or behind hazard pointers (slow). Freed addresses may be allocated again. What is freed is held by nobody, and
what a scan keeps somebody has shown while it ran. `ReclaimComposition` shows that
the list meets the conditions the protocol puts on its users.

**The segment controller and the small pieces.** `SegmentController`: the transactions' adaptive length, against a
nondeterministic hardware. `FreeList`: the free list, compacted in place. `StackRanges`: the published stack ranges, the
hazard-pointer records and their scan, over a byte-addressed memory. `AtomicAdd` and `Registration`: the compare-and-swap loop and
the thread table it fills.

## Assumptions

- Memory is sequentially consistent. A transaction's commit is one step.
- Keys lie strictly between `MIN_KEY` and `MAX_KEY`; there are 10 levels and a node's height is any number from 0 to 9, in
  place of `sl_randomLevel`.
- The tail's `p_next` entries are NULL. Lines 363-364 of skip-list.c leave them unset, and `skiplist_size` relies on them. (The
  other slots of a new node hold an arbitrary value that the machine calls UNSET; no search reads one.)
- In the list machine a node's identity is never reused. The pure operations do not free nodes; the machine adds the
  retire step that the other variants take after `ST_finish` (lines 905-909 and 1036-1041).
- The keys and heights of nodes never change after line 497, so a step that reads a node's mark may also read its key.
- The abstract set is the keys of level-0-linked nodes whose `fullyLinked` flag is set. `isMarked` is 0 whenever the loop of
  line 736 starts over, so the second disjunct of lines 747-748 is never evaluated.
- A free batch size lies between 1 and 1000. Beyond 1000 the index of line 449 leaves the array; bench.c refuses such a size at
  line 361.
- There are fewer than 2^63 threads. bench.c does not bound them either, and past 100 the store of line 71 leaves the table
  (`Registration.StoreInTable`); the machine has no step there.
- In the reclamation machine all threads are registered, an operation is fast or slow from beginning to end, and
  `ST_HP_init` reads its pointer from a word that stays allocated.

## What was found false, and when it does hold

- `is_htm_active` is meant to say whether a transaction runs, and `sl_node_lock` relies on it. After an abort line 185 clears it
  and nothing sets it again, so a transaction that starts on a later attempt runs with the flag clear
  (`Controller.MisreportedStart`). After a segment start the flag is right if and only if the first attempt started or all of them
  aborted (`Controller.SegmentStart`); it is never set outside a transaction (`Controller.Valid`).
- The check of line 250 of stack-track.c does not protect the array: while the indices are in range it never fires. The indices
  are in range afterwards if and only if the finished segment was not the last, number 999 (`Controller.SegmentFinish`);
  `Controller.FinishLastSegment` is the case in which `split_index` becomes 1000 and no error is reported. `Controller.Operation`
  says which operations get there.
- `contains` may answer 0 because it reads a mark whose removal has not unlinked the node yet and may still fail and clear it
  (lines 382 and 791). `SkipListMissedKey.ContainsMissesKey` gives a run in which it answers 0 though the key is in the set at
  every instant of the call. At line 382, with the node marked and still linked, the answer is right at some instant of the call
  if and only if that node's insertion was not complete when the call began
  (`SkipListMissedKey.WrongExactlyIfCompleteAtCall`). Over the whole call an answer 0 is right at some instant if and only if it
  is not read off the mark of a node that was complete at the call's beginning and is linked at its end
  (`SkipListCalls.Linearizable`); every other answer is right without condition. The mark in question was set during the call
  (`SkipListLinearizability.MarkSetInCall`): the search starts over as long as it meets a marked node.

## Model

| member | source | states |
|---|---|---|
| SkipListPreservation.InitHolds | skip-list.c:355-371 | the list that skiplist_init builds satisfies the invariant, and no thread is in a call |
| SkipListPreservation.ApplyKeepsInv | skip-list.c:105-813 | every step of every thread, at every program point, keeps the whole invariant, and does to other threads' nodes only what its guarantee allows |
| SkipListTheorems.InvHolds | skip-list.c:105-813 | the invariant holds in every state of every run |
| SkipListTheorems.LevelIsSortedList | skip-list.c:498-501 | in every reachable state, between any two steps, the walk along a level leads from head to tail in strictly increasing key order and meets exactly the nodes linked there |
| SkipListTheorems.WalkIsSortedList | skip-list.c:783-786 | whatever walk over the real p_next entries leads from head to tail is that one sorted list |
| SkipListTheorems.LevelsAreNested | skip-list.c:498-501 | nodes on a level's walk are on the walk of every lower level, though different threads link bottom-up and unlink top-down |
| SkipListTheorems.AbsIsLevelZero | skip-list.c:373-386 | the abstract set is what the level-0 walk shows: keys of completed nodes between the sentinels |
| SkipListTheorems.NeverRelinked | skip-list.c:783-786 | no step of any thread links a completed node again at any level |
| SkipListTheorems.UnlinkedForever | skip-list.c:759-795 | from the moment a node is unlinked at a level it stays marked and unlinked there for the rest of the run, although line 791 clears marks |
| SkipListReads.UnmarkedIsLinked | skip-list.c:759-795 | a node that was ever linked at a level and is now unmarked is still linked there |
| SkipListTheorems.ValidatedIsInList | skip-list.c:477-489 | after lock-then-validate every predecessor is held, is in the list of its level, and leads to the recorded successor or to the victim |
| SkipListReads.SearchReadsAbsent | skip-list.c:142 | in any reachable heap, a greater key behind the level-0 link of any once-linked node, even one unlinked meanwhile, means that no level-0-linked node has the key |
| SkipListSearches.ReadNoneLinked | skip-list.c:133-157 | over runs: a thread that compares its key with a greater one on level 0 has read the link at an instant of its call at which no level-0-linked node, complete or not, had the key |
| SkipListSearches.NothingFound | skip-list.c:133-157 | over runs: from the end of a search with lFound == -1 to the end of the call, there is an earlier instant of the call at which no level-0-linked node had the key |
| SkipListMarks.SearchSawUnmarked | skip-list.c:129-153 | over runs: the predecessor a search is at, and every predecessor and successor that it has recorded, was unmarked at an instant of its call |
| SkipListMarks.FoundIsTopmost | skip-list.c:148-153 | over runs: lFound is the highest level at which the search met the key, and above it the recorded successors lie beyond the key |
| SkipListMarks.InsertionTestsSuccs | skip-list.c:477-489 | over runs: an insertion goes beyond a level only after it has read the successor unmarked while it held the predecessor's lock |
| SkipListMarks.RefusalIsTested | skip-list.c:465-470 | over runs: an insertion that answers NULL has, after its search, found the node with its key unmarked, and then complete |
| SkipListLifetimes.CompletedMeanwhile | skip-list.c:502 | a node that was completed during a call means an instant of the call at which its key was not in the set |
| SkipListLifetimes.UnlinkedMeanwhile | skip-list.c:783-786 | so does a node that was unlinked during the call |
| SkipListLifetimes.PresentThroughout | skip-list.c:502-786 | a node complete at one instant and linked at a later one has had its key in the set at every instant between them |
| SkipListReads.VictimComplete | skip-list.c:767-778 | a victim whose level-0 predecessor is locked and validated is fullyLinked, which the code never checks |
| SkipListReads.AbsentWhileLinking | skip-list.c:498-502 | until line 502 the key of a node being linked is not in the abstract set |
| SkipListSteps.EqualPredsTogether | skip-list.c:507-512 | equal predecessors sit at consecutive levels, so comparing neighbours finds every duplicate lock |
| SkipListTheorems.LocksAreBalanced | skip-list.c:507-512 | a thread between calls, about to return or about to search again holds no lock |
| SkipListTheorems.LocksDescend | skip-list.c:750-778 | the lock a thread asks for lies strictly below, in key order, every lock it holds: the victim first, then the predecessors from level 0 up |
| SkipListTheorems.NoDeadlock | skip-list.c:28-42 | no cycle of threads each spinning on a lock that the next one holds, for any number of threads |
| SkipListTheorems.SomeoneCanMove | skip-list.c:28-42 | whenever a call is under way some thread can take a step that is not one more turn of a spinning loop |
| SkipListTheorems.NoDoubleLock | skip-list.c:481-484 | a thread never asks for a lock that it already holds |
| SkipListRestarts.RestartsExactlyIf | skip-list.c:129-145 | a step takes a call back to the beginning of its search if and only if the search has met a marked node or a NULL link, an insertion has found its node marked, or the last lock of a failed validation has been released |
| SkipListRestarts.ValidationFailsExactlyIf | skip-list.c:488-774 | a validation fails if and only if it has read a mark on a predecessor or (inserting) on a successor, or a link that no longer leads where the search found it to lead |
| SkipListRestarts.AttemptIsBounded | skip-list.c:133-157 | between two restarts a call takes a bounded number of steps, spinning apart, whatever the other threads do |
| SkipListTheorems.LinksWrittenUnderLock | skip-list.c:498-501 | a link that has been part of a level changes only by a thread that holds its node's lock |
| SkipListTheorems.StateIsSafe | skip-list.c:105-813 | no step dereferences NULL or anything that is not a node, and no search reads a link slot nobody has written |
| SkipListTheorems.StepEffect | skip-list.c:502 | the set gains the key exactly at line 502, loses it exactly at the level-0 unlink of line 784, and no other step changes it |
| SkipListCalls.CallServesArguments | skip-list.c:373-813 | throughout a call the thread works with the operation, the key and the height that the call was made with |
| SkipListCalls.Linearizable | skip-list.c:373-813 | every finished call of every run has its effect or an instant inside the call that justifies its answer to its own arguments, with one exception given as an if-and-only-if: an answer 0 of contains off the mark of a node complete at the call's beginning and linked at its end; a successful update changes the set once, by its key, and a failed one not at all |
| SkipListCalls.InsertLinksNode | skip-list.c:494-502 | a successful insertion completes, at one step of the call, a node that did not exist before it, with the key and the height of the call, linked at exactly the levels 0 to that height |
| SkipListCalls.RemoveUnlinksNode | skip-list.c:783-788 | a successful removal takes, at one step of the call, a complete node with the key of the call out of level 0, and from then on it is linked at no level |
| SkipListLinearizability.MarkSetInCall | skip-list.c:136-145 | the mark off which contains answers 0, with the node still linked, was set during the call |
| SkipListLinearizability.MarkedThroughoutIsNotSeen | skip-list.c:136-145 | a call during which the node is marked throughout never answers off that mark while the node is linked |
| SkipListLinearizability.ChangesHaveCalls | skip-list.c:441-813 | every change of the set in a run is the one effect of one call on its own key |
| SkipListLinearizability.AbsentUnlessThroughout | skip-list.c:382 | for a node present at some instant of a call: its key was absent at some instant of the call if and only if the node was not complete at the beginning or is not present at the end |
| SkipListHistory.SequentialHistory | skip-list.c:373-813 | every run has one sequential history of its calls: replayed on the empty set, with the callers' arguments, it gives each call its answer and ends in the set of the last state, each call stands at an instant at which it was under way, none occurs twice, and every call that has returned occurs with the answer it returned, except a contains in the one wrong case |
| SkipListHistory.RealTimeOrder | skip-list.c:373-813 | in that history a call that returned before another began comes first |
| SkipListHistory.OneEventPerCall | skip-list.c:373-813 | two events of the same call are the same event |
| SkipListMissedKey.ContainsMissesKey | skip-list.c:382 | a concrete run in which contains answers 0 although its key is in the set at every instant of the call |
| SkipListMissedKey.WrongOnlyByMarkOfLinkedNode | skip-list.c:382 | at line 382: if the node is marked and still linked the answer is 0 while the key is in the set; otherwise the answer is right at that instant or an earlier one of the call |
| SkipListMissedKey.WrongExactlyIfCompleteAtCall | skip-list.c:382 | in that case the key was absent at some instant of the call if and only if the node's insertion was not complete when the call began |
| SkipListTheorems.RetiredIsUnreferenced | skip-list.c:905-909 | a node given to ST_free, or about to be, is named by no p_next entry of any node |
| SkipListTheorems.RetiredForever | skip-list.c:783-787 | and no p_next entry will name it in the rest of the run |
| SkipListTheorems.RetiredOnce | skip-list.c:1036-1041 | the lists of retired nodes are free of repetitions and pairwise disjoint, and a victim about to be retired is on none of them |
| SkipListTheorems.UnlinkedIsRetired | skip-list.c:905-909 | every unlinked node is on the list of the thread that unlinked it, or still in that thread's hands: none is lost |
| SkipListConservation.Conservation | bench.c:205-253 | at every instant of every run the level-0 nodes are the two sentinels plus the initial insertions, the diffs and the effects taken but not yet counted |
| SkipListCalls.BooksAreRight | bench.c:190-253 | at every instant each thread's filled counts its successful insertions that populate the set, and its diff the other successful insertions less the successful removals |
| SkipListConservation.SkiplistSize | skip-list.c:1047-1061 | the counting loop returns the number of level-0 nodes between the sentinels |
| SkipListConservation.FinalCheck | bench.c:513-541 | when a run has come to rest, the size of the list is the initial insertions plus the sum of the diffs, so the final check succeeds exactly if the initial count was right |
| SequentialSkipList.Node.constructor | skip-list.c:92-103 | a new node has its key and height, free lock, and neither mark nor fullyLinked |
| SequentialSkipList.SkipList.constructor | skip-list.c:355-371 | every level of the new list leads from head to tail |
| SequentialSkipList.SkipList.Descend | skip-list.c:128-156 | one pass over the levels brackets the key on each of them and, with one thread, never has to restart |
| SequentialSkipList.SkipList.Walk | skip-list.c:135-146 | the inner loop ends at the two neighbours that a linear scan of the level finds |
| SequentialSkipList.SkipList.Find | skip-list.c:105-158 | the multi-level search finds, at every level, the position of a linear scan; lFound is the topLevel of the node with the key, or -1 |
| SequentialSkipList.PositionIs | skip-list.c:140-146 | between its neighbours a key has only one position in a level |
| SequentialSkipList.FirstSeenIsTop | skip-list.c:148-153 | the highest level at which the search meets the key is its node's topLevel |
| SequentialSkipList.FoundIsSucc | skip-list.c:466 | the node recorded at lFound is the one a linear scan of level 0 finds, and the successor at every lower level |
| SequentialSkipList.SkipList.Contains | skip-list.c:373-386 | true exactly if the key is on level 0 |
| SequentialSkipList.SkipList.LockForInsert | skip-list.c:474-489 | each distinct predecessor is locked once, and with one thread every level is valid |
| SequentialSkipList.NewPred | skip-list.c:481-484 | a predecessor that differs from the one below has not been locked yet |
| SequentialSkipList.SkipList.LinkLevel | skip-list.c:499-500 | one level's sequence gains the node at its place and every other level is unchanged |
| SequentialSkipList.SkipList.UnlockPreds | skip-list.c:507-512 | releases every lock that the locking loop took |
| SequentialSkipList.SkipList.Insert | skip-list.c:441-517 | NULL exactly if the key is present, and then nothing changes; otherwise a fresh node takes its place in every level up to its height and no lock stays held |
| SequentialSkipList.SkipList.LockForRemove | skip-list.c:764-778 | the predecessors of the marked victim are locked once each, and with one thread every level is valid |
| SequentialSkipList.SkipList.UnlinkLevel | skip-list.c:784-785 | one level's sequence loses the victim, whose link there becomes NULL |
| SequentialSkipList.SkipList.Remove | skip-list.c:720-813 | true exactly if the key is present; its node then leaves every level, otherwise nothing changes |
| SequentialSkipList.SkipList.InsertThenRemove | skip-list.c:441-813 | inserting an absent key and removing it restores every level |
| SequentialSkipList.SkipList.Size | skip-list.c:1047-1061 | the number of nodes of level 0 between the sentinels |
| SequentialSkipList.InsertedIsInsert | skip-list.c:498-501 | the insertion into a sorted level is set insertion of the key and keeps the order |
| SequentialSkipList.DeletedIsDelete | skip-list.c:783-786 | the deletion from a sorted level is set deletion of the key and keeps the order |
| SequentialSkipList.InsertedLevelKeys | skip-list.c:498-501 | each level up to the height gains exactly the key, the others nothing |
| SequentialSkipList.DeletedLevelKeys | skip-list.c:783-786 | each level loses exactly the key |
| SequentialSkipList.InsertedNested | skip-list.c:498-501 | after an insertion a level still holds exactly the level-0 nodes of its height or more |
| SequentialSkipList.DeletedNested | skip-list.c:783-786 | and after a removal too, with the victim on no level |
| SequentialSkipList.InsertRemoveRestores | skip-list.c:441-813 | deletion of the key undoes its insertion on every level |
| ReclaimSafety.StepKeepsInv | stack-track.c:287-437 | every step of every thread, interleaved with scans by any number of threads, keeps the invariant of the protocol |
| ReclaimSafety.StepEvolves | stack-track.c:287-300 | no step lets a thread take hold of a retired node, and while it holds one its records, words and counters show it |
| ReclaimSafety.ScanKnows | stack-track.c:380-411 | each step of the scanner keeps its knowledge true: a passed entry is marked found or is not held by the scanned thread |
| ReclaimSafety.FreedIsHeldByNone | stack-track.c:417-430 | the entry that the compaction loop frees is held by no thread at that instant |
| ReclaimSafety.ListsKept | stack-track.c:449-450 | free lists stay duplicate-free, pairwise disjoint and allocated |
| ReclaimTheorems.FreedIsFree | stack-track.c:366-437 | whatever a run frees is held by no thread, neither behind a record nor as a live root of a transactional operation, and no link slot names it or is part of it |
| ReclaimTheorems.FreedOnce | stack-track.c:424-429 | whatever is freed was on a free list and is on none afterwards: no double free |
| ReclaimTheorems.HeldIsAllocated | stack-track.c:366-437 | what a thread holds is allocated, in every state of every run |
| ReclaimTheorems.NamedIsNotRetired | skip-list.c:783-787 | every link slot leads to an allocated node that is on no free list |
| ReclaimTheorems.HpInitReturns | stack-track.c:287-300 | ST_HP_init returns exactly when its record equals the source word at that instant, and the record is in force from then on |
| ReclaimTheorems.HazardPointerProtects | stack-track.c:287-318 | while a record is in force its node stays allocated |
| ReclaimTheorems.StaysInForce | stack-track.c:268-300 | a record stays in force until its thread resets its records, uses the record again or finishes the operation: no other step ends it |
| ReclaimTheorems.InitProtects | stack-track.c:287-318 | from the step with which ST_HP_init returns until its thread takes one of those three steps, what the source word held stays in the record and allocated, and no step of any thread frees it |
| ReclaimTheorems.EqualSplitCounters | stack-track.c:400-409 | equal reads of split_counter around a scan mean one consistent view: a pointer that was not found is not held |
| ReclaimTheorems.ChangedStackCounter | stack-track.c:396-398 | a changed stack_counter means that the thread holds nothing on the list, so the early break is sound |
| ReclaimTheorems.ScanIsConclusive | stack-track.c:388-412 | when the loops end, every entry not marked found is held by no thread |
| ReclaimTheorems.ScanCanStep | stack-track.c:366-437 | in every reachable state a scan that is under way can take its next step, and every thread, counter, entry, record and word it uses is in range |
| ReclaimPrecision.OnlySlowUsesRecords | stack-track.c:89-107 | a thread counts as slow from ST_init until a transaction starts and not between operations, and only a slow thread has records in use |
| ReclaimPrecision.FoundWasShown | stack-track.c:384-411 | an entry is marked found only if, since the scan began, some thread has shown its pointer: in a record in use on the slow path, or among its published words |
| ReclaimPrecision.MarkingStep | stack-track.c:402-405 | the step that marks an entry stands at that entry, and the thread it is looking at is one that has shown the pointer |
| ReclaimPrecision.KeptWasShown | stack-track.c:414-434 | what a scan leaves on the list, some thread has shown while the scan ran |
| ReclaimPrecision.UnshownIsFreed | stack-track.c:414-434 | a retired node that no thread shows during its owner's scan is freed by that scan |
| ReclaimPrecision.ShownThroughoutIsKept | stack-track.c:346-364 | a retired node that some thread, fast or slow, shows among its published words throughout the scan without finishing its operation survives the scan |
| ReclaimPrecision.RetiredUntilFreed | stack-track.c:449-450 | a retired node stays on its list until a scan frees it |
| ReclaimPrecision.SearchedWasUnfinished | stack-track.c:396-398 | a thread is searched for an entry only if, just before, it had finished no operation since the scan read its counter |
| ReclaimPrecision.PassesFoundOnly | stack-track.c:392-417 | threads are searched only for entries not yet found, and the compaction loop passes only found ones |
| ReclaimPrecision.OperationsAreCounted | stack-track.c:97-102 | stack_counter counts every finished operation exactly once |
| ReclaimWork.ScanWorkBound | stack-track.c:388-412 | the inner loop turns at most threads x free_list_size times plus once for every commit made by the threads since the scan began |
| ReclaimProgress.ScanStepsBound | stack-track.c:366-437 | all steps of a scan, over counters, records, words and entries, are bounded by the threads, the list's size, the published words and the commits made meanwhile: a scan ends once the commits do |
| ReclaimComposition.ListObeysProtocol | skip-list.c:498-500 | every step of the list is, to the protocol, nothing, an allocation, a store of NULL or of a node that is not retired, or a legal retirement |
| ReclaimComposition.RunObeysProtocol | skip-list.c:783-787 | the same for every step of every run of the list |
| FreeList.SweepSeparates | stack-track.c:414-434 | compaction keeps exactly the found entries and frees exactly the others, each as often as it occurs |
| FreeList.SweepConserves | stack-track.c:414-434 | kept plus freed is the original multiset |
| FreeList.FreedFollowScan | stack-track.c:414-434 | after a scan, compaction frees the pointers at exactly the indices that the scan missed |
| FreeList.KeptFollowScan | stack-track.c:414-434 | and keeps those at exactly the indices that it found |
| FreeList.MachineSweeps | stack-track.c:417-430 | the compaction that the reclamation machine does a turn at a time is this one |
| FreeList.ScanProgress | stack-track.c:453-456 | a scan makes room exactly if it misses an entry; otherwise nothing is freed and the list is unchanged |
| FreeList.FreeList.constructor | stack-track.h:94-96 | an empty list with room for 1000 entries |
| FreeList.FreeList.Compact | stack-track.c:414-434 | the in-place loop leaves the kept entries as the prefix and calls free on the others, in the order of the specification, never outside the array |
| FreeList.FreeList.ScanAndFree | stack-track.c:384-437 | exactly the pointers at the indices that the scan missed are freed, those at the indices it found stay, nothing is lost, and the list shrinks exactly if an entry was missed |
| FreeList.FreeList.Free | stack-track.c:439-459 | the pointer is stored inside the array; the call returns, with size < max, exactly if the list does not fill up or some scan misses an entry; until then nothing is freed, and then the first such scan frees exactly the pointers at the indices it missed and keeps those at the indices it found |
| StackRanges.RoundTrip | stack-track.c:334 | an 8-byte little-endian store is read back by the 8-byte load at the same address, at any alignment |
| StackRanges.LoadIsLittleEndian | stack-track.c:334 | the load takes the byte at the address as the least significant of the eight |
| StackRanges.WordsAppear | stack-track.c:327-341 | the scan order makes no difference: a pointer is among the scanned words exactly if some byte address of some hull reads as it |
| StackRanges.StoredIsScanned | stack-track.c:320-344 | every pointer stored inside a registered range of any published stack is among the scanned words |
| StackRanges.HullIsTight | stack-track.c:115-139 | the hull covers every registered range and its ends come from a range or from the initial values |
| StackRanges.Published.StackInit | stack-track.c:115-119 | the next stack entry becomes the empty hull |
| StackRanges.Published.Reset | stack-track.c:89-100 | at the ends of an operation nothing stays published |
| StackRanges.Published.AddRange | stack-track.c:121-139 | the hull grows just enough to cover the range, and every range registered before stays covered |
| StackRanges.Published.Publish | stack-track.c:141-145 | exactly the current hull is added to the published ones |
| StackRanges.Published.Del | stack-track.c:147-150 | exactly the last published hull is withdrawn |
| StackRanges.Published.PublishRanges | stack-track.c:115-145 | any series of ranges, published, is covered by its hull and leaves the other stacks alone |
| StackRanges.Published.HpAlloc | stack-track.c:272-285 | the record handed out is inside the array; the call fails exactly at the last one |
| StackRanges.Published.ScanHpRecords | stack-track.c:305-318 | found exactly if one of the records in use holds the pointer |
| StackRanges.Published.ScanStack | stack-track.c:320-344 | found exactly if some byte address of some published hull reads as the pointer |
| StackRanges.Published.ScanThread | stack-track.c:346-364 | found exactly if a record holds the pointer, on the slow path, or it is among the scanned words |
| SegmentController.LimitBounds | stack-track.c:171-246 | the limit is congruent to max_segment_len modulo 5 and between 1 and it, saved successes do not exceed successes, five commits paid for each raise and five capacity aborts for each cut |
| SegmentController.AdaptedIsAfterAborts | stack-track.c:189-203 | attempt by attempt the code arrives at one cut for every five capacity aborts |
| SegmentController.CutsInClosedForm | stack-track.c:195-203 | that is min(c/5, (limit-1)/5) cuts after c capacity aborts |
| SegmentController.RaisesInClosedForm | stack-track.c:235-246 | n commits in a row raise the limit by five for every fifth commit not yet paid for, min((n + min(success - saved, 4)) / 5, room) times, and saved is the success count at the last raise |
| SegmentController.AfterAbortsOk | stack-track.c:187-203 | failed attempts keep the accounting of the segment |
| SegmentController.AfterCommitOk | stack-track.c:235-246 | a commit keeps the accounting of the segment; the upper bound needs the congruence |
| SegmentController.Controller.constructor | stack-track.c:51-66 | every segment starts with the limit max_segment_len and nothing counted |
| SegmentController.Controller.HtmStart | htm.c:84-94 | a transaction runs exactly if the attempt starts, and a capacity abort is counted |
| SegmentController.Controller.HtmCommit | htm.c:96-98 | ends a transaction, and may only be called inside one |
| SegmentController.Controller.OnAbort | stack-track.c:185-205 | one failed attempt adapts the current segment only |
| SegmentController.Controller.SegmentStart | stack-track.c:171-216 | after at most 51 failed attempts exactly one of transaction and slow path; is_htm_active tells which if and only if the first attempt starts or all of them abort; the segment's new limit in closed form in the number of capacity aborts, its saved count renewed exactly if there was one; other segments unchanged |
| SegmentController.Controller.MisreportedStart | stack-track.c:183-185 | one abort and then a start leave a transaction running with is_htm_active clear |
| SegmentController.Controller.SegmentFinish | stack-track.c:218-255 | commits only inside a transaction, counts one split either way, and a commit raises the limit by five and renews saved if and only if more than four successes have come since saved and the limit is below the maximum; adapts the finished segment only, never reaches the error report, and leaves the indices in range if and only if the finished segment is not the last |
| SegmentController.Controller.FinishLastSegment | stack-track.c:250-253 | finishing segment 999 reports no error and leaves split_index at 1000, outside the array |
| SegmentController.Controller.SplitStart | stack-track.c:155-164 | the first segment of the operation runs, in a transaction or on the slow path |
| SegmentController.Controller.Split | stack-track.h:125-130 | a checkpoint lets a segment within its limit go on and otherwise finishes it and starts the next |
| SegmentController.Controller.SplitFinish | stack-track.c:166-169 | no transaction is left open, and one operation is counted |
| SegmentController.Controller.Operation | stack-track.c:155-263 | any operation, with any number of checkpoints, saves, restores and hardware outcomes, keeps every invariant, counts every checkpoint once in a segment's length, and ends outside a transaction, unless a checkpoint finds the last of the 1000 segments used up; with fewer than 1000 events, counted from the saved index, it always finishes |
| AtomicAdd.NoLostUpdates | atomics.c:7-15 | in every interleaving the cell is its initial value plus every successful add, modulo 2^64 |
| AtomicAdd.AddsAtOneInstant | atomics.c:7-15 | each call adds exactly its own argument at one instant and returns the value that the earlier adds had made |
| AtomicAdd.AddsAreCalls | atomics.c:7-15 | there are as many successful adds as calls that have returned |
| Registration.MoveKeepsInv | stack-track.c:47-74 | every step of every registering thread keeps the invariant of the table |
| Registration.IdsAreDistinct | stack-track.c:53 | thread identifiers are distinct, for any number of threads, and index the table when there are at most 100 or the store has been made |
| Registration.StoreInTable | stack-track.c:71 | the store stays inside the table if and only if fewer than 100 threads got an identifier before this one |
| Registration.TableIsFull | stack-track.c:71-72 | when no registration is in flight the first g_n_threads entries of the table are the registered threads, each under its identifier, and the rest is empty |

## Left out

- SkipListCalls.Linearizable: gives no instant for the one wrong answer of `contains`, because there is none; SkipListHistory.SequentialHistory leaves exactly that call out.
- SequentialSkipList.SkipList.Insert: does not contain the spinning of line 468, which one thread never reaches; the list machine models it.
- SequentialSkipList.SkipList.Remove: `p_preds` and `p_succs` are sequences that the search reassigns, not arrays.
- FreeList.FreeList.Free: takes what each scan finds as a parameter; ReclaimSafety says what a finding means. A batch size of 0 or above 1000 is excluded.
- FreeList.FreeList.ScanAndFree: takes what the scan finds as a parameter, for the same reason.
- SegmentController.Controller.SegmentFinish: takes in-range indices as a precondition, because the code reads the segment's entry before any check; SegmentController.Controller.Operation stops where they would leave the range.
- Whole-traversal safety of `sl_find_hp`: it reads the link again after publishing (lines 204-205, 218-219), so the pointer it follows need not be the published one. Protection is proved for the value that `ST_HP_init` published.
- A switch from the fast to the slow path in the middle of an operation: `is_slow_path` is read once per scan (line 355 of stack-track.c) and can change without a change of `split_counter`.
- A scan while a thread is half registered, where `g_st_threads` may hold NULL below `g_n_threads`.
- The bodies of the `_hp` and `_stacktrack` operations: their list logic is that of the pure ones; only the retire step and the bookkeeping of roots are modelled.
- Whether restarts ever end (one attempt does, `SkipListRestarts.AttemptIsBounded`), starvation, fairness and weak memory.
- Transactional hardware, inline assembly, the allocator, pthreads, the barrier, timing, options and printing.
- The random generator: heights and keys are arbitrary.
