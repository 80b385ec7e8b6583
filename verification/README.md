# Verified models of the study repository's hard parts

Dafny models of the parts of this C repository in which something non-trivial is promised: a concurrent
semaphore library, a work queue, an asynchronous I/O pipeline, a descriptor-passing protocol, two sorts, a
directory walk, the Internet checksum, traceroute's reply matching, a signal rendezvous, `popen`, a k-way
merge and an equation checker. `dafny verify dfyconfig.toml` checks everything.

C code that changes state is a class or an array method with the same fields, branches and loops; it is
proved against a function of the old state, and the promises are lemmas about that function. Concurrent
programs are transition functions whose events are single system calls, single reads or writes of a variable that
others can see, completions, signals and process deaths; "for every run" means for every finite sequence of events,
in any order. Only the asynchronous filter, a program of one thread, takes a pass of its scan as one event: a pass
asks once about one request, and a completion during the pass is as good as one after it.

| files | what they model |
|---|---|
| `SemKernel`, `SemProtocol`, `SemSafety`, `SemRuns`, `SemDiscipline`, `SemRemoval`, `SemLimits`, `SemValue`, `SemCalls`, `SemSystem` | `apue/lib/semaph.c`: any number of processes, any number of sets, death at every point |
| `CondQueue`, `CondRuns` | `apue/ch11/ch11_pthread_cond.c`: any number of producers and consumers, spurious wakeups |
| `AsyncFilter`, `AsyncProgram`, `AsyncQuit`, `AsyncMoves`, `AsyncMisfire` | `apue/ch14/ch14_async.c`, specified by `apue/ch14/ch14_fsync.c` |
| `FdPassing`, `FdRoundTrip` | `apue/lib/writen.c`, `senderr.c`, `sendfd.c`, `recvfd.c` |
| `Elements`, `SortSpec`, `Sorting` | `my_sort.c`, on bytes, for every element size and every total preorder |
| `DirTree`, `DirNodes`, `DirWalk` | `apue/ch04/ch04_dirent.c` |
| `Checksum` | `check_sum` of `my_icmp.c` and `in_cksum` of `traceroute_std.c` (RFC 1071) |
| `Traceroute` | probes and replies of `traceroute_std.c` |
| `Rendezvous` | `apue/lib/tellwait.c` and its client `apue/ch14/ch14_deadlock.c` |
| `Popen` | `apue/lib/popen.c` |
| `BarrierMerge`, `BarrierProgram` | `comlong` and `merge` of `apue/ch11/ch11_pthread_barrier.c` |
| `Equations` | `leetcode/equations.c` |
| `Sums`, `Bytes`, `Options` | sums and counts over sequences, octets, optional values |

## Where the code and its documentation part

The models follow the code.

* The semaphore comments (`apue/lib/semaph.c:15-27`) promise that the set is removed when the last process is
  done and that the lock avoids races. `sem_open` joins without the lock, so a closer can be about to remove a
  set that somebody has just opened (`OpenSlipsIn`). The removal is safe exactly when everybody who opened the set
  since the closer looked has died (`RemovalIsSafeIffAllDied`), so always when processes join through `sem_create`
  alone (`CloseRemovesUnused`).
  With BIGCOUNT registrations live the counter reads 0 and the next creator initialises the set anew
  (`CounterExhausted`); this is the only step that breaks the invariant (`GetvalBreaksIff`).
* `ch14_async.c` compares a completed write with the length of the *last read that returned*, not with its own
  length. It can report a short write that did not happen for exactly the files whose last block is short and not the
  only one (`MisfiresIff`); `QuitsIff` says at which writes.
* `recv_fd` looks for the null byte and the status byte in one buffer. A stream cut between the two makes it
  dump a well-formed exchange (`RoundTrip`); for a receiver that always fills its buffer that happens for
  exactly the messages whose length is one less than a multiple of MAXLINE (`GreedyReceiver`).
* `lockabyte` tests `writew_lock(...) > 0`, which is never so: a refused process says that it got the lock and goes
  on. It has the lock exactly if it was not refused (`SaidWithoutLock`); `RefusedAndSaid` is a run where it has not.
* The path given for an unreadable directory ends in a slash (`apue/ch04/ch04_dirent.c:87-90`), unlike the path of
  the same directory in the call before it.
* `popen` leaves both pipe ends open in the parent when `fork` fails, one when `fdopen` fails, and its child loses the pipe
  exactly when the standard descriptor it is to use belongs to an earlier popen stream (`ChildExec`; a session in
  which this happens is `ChildLosesItsPipe`).
* `equationsPossible` answers true for some contradictions, because `find_root` follows two links at most
  (`AcceptsAContradiction`). `KeepsExact` is the exact guard under which an equality is recorded faithfully. Its first
  loop counts in a `short`: with more than 32767 entries it reads in front of them, and there is no answer
  (`EquationsPossible`).
* `traceroute` stops at a line in which all but one probe were refused. With `-q 1` that is so for every line, and the
  run ends after ttl 1 (`SingleProbeStopsAtOnce`). With more than 65536 probes in all, and at least two a line, a line
  can show an answer to a probe of another ttl (`LinesAreTrueIff`).
* `merge` chooses no segment when every remaining head is LONG_MAX, and goes on with the index of an earlier turn,
  across the end of its segment if need be. `Merge` says when that reads something unset or past the end, and when its
  outcome is right all the same; `WrongOutcome` and `PastTheEnd` are inputs for both failures.

## Model

| member | source | states |
|---|---|---|
| `SemKernel.SemopConserves` | apue/lib/semaph.c:49-81 | a semop array whose changes all carry SEM_UNDO keeps, for every member, the value plus all pending adjustments, and touches nobody else's adjustments |
| `SemKernel.UndoConserves` | apue/lib/semaph.c:19-24 | the exit of a process keeps that sum for each member, except for what the clamp at 0 withholds |
| `SemKernel.SetValLevel` | apue/lib/semaph.c:139-152 | SETVAL makes the sum of its member the new value, because it clears every process's adjustment of that member, and leaves the other members' sums |
| `SemSafety.LockEffect` | apue/lib/semaph.c:49-54 | the lock array succeeds exactly on an unlocked set, and then makes [2] 1 with one adjustment of -1 to undo it |
| `SemSafety.EndCreateEffect` | apue/lib/semaph.c:56-61 | the end-of-create array registers the caller and releases the lock in one step, or waits when the counter is 0 |
| `SemSafety.CloseEffect` | apue/lib/semaph.c:67-71 | the close array takes the lock and deregisters the caller in one step, or waits without having done either |
| `SemSafety.SingleEffect` | apue/lib/semaph.c:63-81 | any array of one change with undo, as open, unlock and sem_op use: the value moves by the amount with the opposite adjustment, or nothing happens because it would become negative |
| `SemSafety.AtMostOneInCs` | apue/lib/semaph.c:105-159 | two processes are never both between lock and unlock of one set |
| `SemSafety.CounterBound` | apue/lib/semaph.c:246-248 | the counter never exceeds BIGCOUNT, and equals it on an initialised set only if no process is registered |
| `SemSafety.ExitSet` | apue/lib/semaph.c:19-24 | a process dying at any point leaves the set's invariant intact; its undo never drives [1] or [2] negative |
| `SemSafety.StepKeepsInv` | apue/lib/semaph.c:89-291 | every system call, failure and death keeps the invariant of all sets, as long as sem_close is called on open sets only and no creator finds the counter exhausted |
| `SemRuns.RunsKeepInv` | apue/lib/semaph.c:89-291 | the invariant holds after every allowed run from no sets at all |
| `SemRuns.LockAndCounterHere` | apue/lib/semaph.c:49-81 | wherever the invariant holds: [2] is the number of lock holders, at most 1, and [1] is BIGCOUNT less the registrations once initialised, 0 before |
| `SemRuns.LockAndCounter` | apue/lib/semaph.c:49-81 | in every reachable state [2] is the number of processes holding the lock, at most 1; [1] is 0 without registrations before initialisation and BIGCOUNT minus the registrations after; no exit makes either negative; the "> BIGCOUNT" branch is never taken |
| `SemRuns.InitialisationIsSafe` | apue/lib/semaph.c:130-162 | a SETVAL meets a set nobody has returned from and nobody is registered in, so it wipes out no adjustment of the counter; a returned id is fully initialised. P and V are not restricted |
| `SemDiscipline.SetvalWipesNothing` | apue/lib/semaph.c:138-153 | if P and V are called on open sets only, it wipes out no adjustment of the value either |
| `SemRuns.ValueConserved` | apue/lib/semaph.c:77-81 | the initial value is always the present value plus all operations still to be undone, less what clamped exits withheld |
| `SemRuns.GetvalBreaksIff` | apue/lib/semaph.c:135-138 | the creator's GETVAL breaks the invariant if and only if the set is initialised and BIGCOUNT registrations are live |
| `SemRuns.BoundedRunsAreAllowed` | apue/lib/semaph.c:43 | fewer than BIGCOUNT registrations at every moment, and sem_close on open sets only, are enough for all of the above |
| `SemRemoval.GoOutcome` | apue/lib/semaph.c:105-253 | while a closer holds the lock, a system call of another process ends it, registers it by a successful sem_open, or leaves all registrations alone |
| `SemRemoval.JoinedAreRegistered` | apue/lib/semaph.c:188-253 | between a closer's GETVAL and its IPC_RMID the registered processes are exactly those whose sem_open has succeeded since and that have not died since |
| `SemRemoval.RemovalIsSafeIffAllDied` | apue/lib/semaph.c:243-249 | the removal is safe if and only if every process whose sem_open succeeded after the closer's GETVAL has died since |
| `SemRemoval.RemovalIsSafeIff` | apue/lib/semaph.c:243-249 | the same on the counter: nobody is registered exactly when it still reads BIGCOUNT |
| `SemRemoval.CloseRemovesUnused` | apue/lib/semaph.c:105-122 | in runs that join through sem_create only, sem_rm allowed, sem_close removes a set only when no process has it open |
| `SemLimits.CreateRun` | apue/lib/semaph.c:89-163 | an undisturbed sem_create on a new key ends with one registration, a free lock and the given value |
| `SemLimits.OpenSlipsIn` | apue/lib/semaph.c:188-196 | an allowed run in which a closer is about to remove a set that another process has just opened |
| `SemLimits.CounterExhausted` | apue/lib/semaph.c:130-153 | an allowed run to BIGCOUNT registrations, from which the next creator overwrites the value and wipes out all registrations |
| `SemValue.OpMovesValue` | apue/lib/semaph.c:284-291 | sem_op adds its amount to [0] with the opposite adjustment and returns, changing nothing else; where [0] would become negative it waits, changing nothing |
| `SemValue.WaitTakesOne` | apue/lib/semaph.c:262-265 | sem_wait takes 1 away, or waits on 0 |
| `SemValue.SignalAddsOne` | apue/lib/semaph.c:273-276 | sem_signal adds 1 and never waits |
| `SemValue.SecondWaits` | apue/lib/semaph.c:262-291 | a run: created with 1, the first P passes, the second waits, a V lets it go |
| `SemCalls.BadKeysRefused` | apue/lib/semaph.c:99-103 | the keys 0 and -1 are refused by sem_create and sem_open, others are looked up |
| `SemCalls.LookupFails` | apue/lib/semaph.c:106-107 | a failing semget makes both return -1, sem_open also where nobody created the set |
| `SemCalls.OpenAndClose` | apue/lib/semaph.c:193-253 | sem_open registers the caller and returns the id; sem_close takes lock and registration in one step and gives the lock back |
| `SemCalls.CloseDecides` | apue/lib/semaph.c:243-252 | above 10000 sem_close dumps, at 10000 it removes the set, below it unlocks |
| `SemCalls.RemovalTakes` | apue/lib/semaph.c:208-212 | sem_rm takes the set and its keys and nothing else |
| `SemCalls.SetGone` | apue/lib/semaph.c:124-128 | on a set that is gone sem_create starts again unless it was already waiting for the lock; every other call, and a sem_op of 0, ends the process |
| `SemSystem.System.Semop` | apue/lib/semaph.c:124-128 | the kernel's loop over the array commits all operations or none, and reports a removed set |
| `SemSystem.System.UndoSet` | apue/lib/semaph.c:19-24 | the loop over the members applies and clears one process's adjustments in a set |
| `SemSystem.System.Exit` | apue/lib/semaph.c:19-24 | undoing set by set, in any order, is the transition of a dying process |
| `SemSystem.System.DropKeys` | apue/lib/semaph.c:207-212 | the loop over the keys drops exactly those that lead to the removed set |
| `SemSystem.System.Rmid` | apue/lib/semaph.c:207-212 | sem_rm takes the set, its keys and its history away, or exits when it is gone |
| `SemSystem.System.DoSemop` | apue/lib/semaph.c:193-194 | a semop moves the caller on, leaves it waiting, or makes it exit; it reports success exactly when the array could be applied |
| `SemSystem.System.ResumeCreate` | apue/lib/semaph.c:105-162 | sem_create, between any two of its system calls, does what the transition function says |
| `SemSystem.System.ResumeOpen` | apue/lib/semaph.c:185-196 | the same for sem_open |
| `SemSystem.System.ResumeClose` | apue/lib/semaph.c:232-252 | the same for sem_close, its removal branch included |
| `SemSystem.System.ResumeOp` | apue/lib/semaph.c:284-291 | sem_op on the tables is the transition of the model, and moves [0] by the amount given |
| `SemSystem.System.Deliver` | apue/lib/semaph.c:89-291 | one event of any kind updates the tables as the transition function says |
| `SemSystem.System.Execute` | apue/lib/semaph.c:89-291 | a whole schedule from no sets ends in the state the run lemmas speak about; if sem_close is called on open sets only and the counter is never exhausted, the tables then satisfy the invariant, and lock and counter of every set are as they should be |
| `CondQueue.StepKeepsInv` | apue/ch11/ch11_pthread_cond.c:12-35 | every read, write and pthread call, signals and spurious wakeups included, keeps the list, ownership and wakeup invariants |
| `CondQueue.RunsKeepInv` | apue/ch11/ch11_pthread_cond.c:12-35 | they hold after every run of callers that own what they enqueue |
| `CondQueue.NoWakeupIsLost` | apue/ch11/ch11_pthread_cond.c:17-34 | while a consumer waits, the queue is no longer than the producers between unlock and signal plus the consumers that are awake; test and wait are two events, and the mutex is what keeps producers out between them |
| `CondQueue.AllWaitingMeansEmpty` | apue/ch11/ch11_pthread_cond.c:17-34 | somebody waiting, nobody awake and no signal outstanding means the list is empty |
| `CondQueue.ListAndMessages` | apue/ch11/ch11_pthread_cond.c:22-32 | the pointers spell a finite list without repetition, and enqueued = queued + taken as multisets, so no message is taken twice |
| `CondQueue.MutualExclusion` | apue/ch11/ch11_pthread_cond.c:17-33 | at most one thread is inside the locked sections |
| `CondRuns.MutexComesBack` | apue/ch11/ch11_pthread_cond.c:17-33 | nobody keeps the mutex for more than five accesses of its own, whatever the others do |
| `CondRuns.MessagePasses` | apue/ch11/ch11_pthread_cond.c:12-35 | a run: a consumer waits on the empty queue, a producer puts a message in and signals, the consumer takes it |
| `CondQueue.WorkQueue.ProcessMsg` | apue/ch11/ch11_pthread_cond.c:13-26 | the consumer's reads, writes and calls, one at a time, are the transitions of the model |
| `CondQueue.WorkQueue.EnqueueMsg` | apue/ch11/ch11_pthread_cond.c:29-35 | the producer's too, up to the signal |
| `CondQueue.WorkQueue.CondSignal` | apue/ch11/ch11_pthread_cond.c:34 | the signal wakes a waiting consumer if there is one |
| `CondQueue.WorkQueue.Deliver` | apue/ch11/ch11_pthread_cond.c:12-35 | one event, signals and spurious wakeups included, keeps the invariant |
| `CondQueue.WorkQueue.Execute` | apue/ch11/ch11_pthread_cond.c:12-35 | a whole schedule on the shared variables ends in the state the run lemmas speak about |
| `AsyncFilter.BlockWrite` | apue/ch14/ch14_async.c:112-120 | writing a translated block at its own offset, in any order, puts it in place and spoils no block already there |
| `AsyncFilter.StepKeepsInv` | apue/ch14/ch14_async.c:74-151 | every pass of the scan and every completion keeps the bookkeeping invariant |
| `AsyncFilter.RunsKeepInv` | apue/ch14/ch14_async.c:65-151 | it holds in every reachable state |
| `AsyncFilter.Bookkeeping` | apue/ch14/ch14_async.c:65-151 | in every reachable state `numop` counts the busy buffers, which are exactly the listed ones; blocks in flight are distinct, aligned and below `off`; every other block below `off` is in the output, translated, at its own place |
| `AsyncFilter.FinishedOutput` | apue/ch14/ch14_async.c:142-145 | whenever nothing is in flight and the whole file was asked for, the output is the translated input |
| `AsyncProgram.SequentialFilter` | apue/ch14/ch14_fsync.c:41-52 | the sequential loop with its buffer, for every way reads may come up short, writes the translated input |
| `AsyncProgram.Pipeline.ScanOne` | apue/ch14/ch14_async.c:74-151 | one pass through the switch updates buffers, list, offset and count as the transition function says |
| `AsyncProgram.Pipeline.Execute` | apue/ch14/ch14_async.c:72-152 | under any order of completions the program is the run of the model, and its finished output equals the sequential one |
| `AsyncQuit.QuitsIff` | apue/ch14/ch14_async.c:134-136 | a completed write makes the program quit if and only if the last read to return had another length than the block written |
| `AsyncQuit.ShortReadQuits` | apue/ch14/ch14_async.c:92-123 | a completed read quits exactly if it is short and not the last; else its translated block is what will be written, at its own offset |
| `AsyncQuit.UniformNeverQuits` | apue/ch14/ch14_async.c:134-136 | a file of whole blocks, or of one block, never trips the check |
| `AsyncMisfire.MisfiresIff` | apue/ch14/ch14_async.c:72-152 | for every file: some run quits over a short write if and only if the last block is short and not the only one |
| `FdPassing.StatusByte` | apue/lib/sendfd.c:30-32 | the status byte is the residue of the error code, but never 0 |
| `FdPassing.Socket.Writen` | apue/lib/writen.c:4-23 | for any results of write, exactly a prefix of the data goes out and its length is returned; all of it when every write makes progress; -1 exactly when the first write fails |
| `FdPassing.Socket.SendFd` | apue/lib/sendfd.c:13-49 | what goes out is the part of the two-byte trailer, with the descriptor attached or the status, that sendmsg accepts; success exactly when that is all of it; nothing when there is no control block |
| `FdPassing.Socket.SendErr` | apue/lib/senderr.c:8-24 | on success the message and then a negative status are on the wire; on failure a proper prefix of the two |
| `FdPassing.ScanBuffer` | apue/lib/recvfd.c:48-62 | the scan, with its shrinking bound, finds the trailer, the outcome and the message bytes of one buffer |
| `FdPassing.WhatChunkMeans` | apue/lib/recvfd.c:48-62 | a buffer without a null is message; with one it is a format error unless the null is next to last and a status of 0 comes with a descriptor |
| `FdPassing.RecvFd` | apue/lib/recvfd.c:15-68 | the receive loop, for any receives and any callback, gives the outcome and the callback chunks of the specification, and the callback decides as said in the next row |
| `FdPassing.CallbackDecided` | apue/lib/recvfd.c:63-66 | for any callback: all but the last of what it got it took in full; if it refused the last, the outcome is failure, so a descriptor or status means it took everything; any other failure means that the stream broke off |
| `FdRoundTrip.RoundTrip` | apue/lib/recvfd.c:23-67 | for every message without null bytes and every cut of the stream into non-empty chunks: the callback gets exactly the message in order and the status or descriptor is returned, if the last chunk holds the whole trailer, and otherwise the receiver dumps |
| `FdRoundTrip.RefusedPiece` | apue/lib/recvfd.c:63-64 | a callback that takes the first pieces of the message and refuses the next gets just these, and recv_fd fails, also when the trailer came with the refused piece |
| `FdRoundTrip.StatusOfError` | apue/lib/senderr.c:17-20 | an error code e arrives as -((-e) mod 256), or as -1 when that is 0 or e is not negative |
| `FdRoundTrip.ExchangeError` | apue/lib/senderr.c:8-24 | send_err, any cut of the stream and recv_fd in one: the message in order and -((-e) mod 256) or -1, unless the cut falls inside the trailer |
| `FdRoundTrip.ExchangeDescriptor` | apue/lib/sendfd.c:13-49 | a message, send_fd, any cut and recv_fd in one: the message in order and the descriptor, under the same condition |
| `FdRoundTrip.GreedyReceiver` | apue/lib/recvfd.c:43-62 | a receiver that fills its buffer each time fails on exactly the messages whose length plus 1 is a multiple of MAXLINE |
| `Elements.OffsetIsProduct` | my_sort.c:7-9 | element i starts i times the size behind the base |
| `Elements.Swap` | my_sort.c:21-32 | the byte loop exchanges two whole elements, even when they are the same one, and nothing else |
| `Elements.CopyElem` | my_sort.c:126-130 | a copied element changes that element of the view and no other byte |
| `Sorting.ScanDown` | my_sort.c:44-46 | stops at the first element from the right below the pivot, or where it met the left index |
| `Sorting.ScanUp` | my_sort.c:48-50 | stops at the first element from the left above the pivot, or where it met the right index |
| `Sorting.PartitionTurn` | my_sort.c:42-56 | one turn narrows the gap, and the pivot, read through a pointer into the array being changed, is still where it was |
| `Sorting.Partition` | my_sort.c:35-64 | the pivot ends at the returned index, nothing on its left is greater, nothing on its right smaller, the range is permuted, no byte behind the elements changes |
| `Sorting.DoQsort` | my_sort.c:66-78 | terminates; the range is sorted and permuted, all else untouched |
| `Sorting.MyQsort` | my_sort.c:83-86 | the array becomes a sorted permutation of its elements |
| `SortSpec.MergeStable` | my_sort.c:97-124 | merging keeps the order of equal elements: those of the left run, then those of the right |
| `SortSpec.MergeArranges` | my_sort.c:136-152 | merging the stable arrangements of two halves gives the stable arrangement of the whole |
| `SortSpec.StableSortIsUnique` | my_sort.c:136-160 | sorted and stable leave exactly one result |
| `SortSpec.SortedPermutationsAgree` | my_sort.c:66-160 | two sorted arrangements of the same elements compare equal at every position |
| `Sorting.MergeInto` | my_sort.c:97-124 | the first loop fills the temporary block with the merge of the two runs |
| `Sorting.CopyBack` | my_sort.c:126-130 | the second loop puts it over the range and changes nothing else |
| `Sorting.DoMerge` | my_sort.c:89-134 | where both halves are arranged, the range becomes the stable arrangement of the original; with fewer than two elements nothing changes |
| `Sorting.SortPair` | my_sort.c:140-145 | the shortcut for two elements is the stable arrangement too, equal elements staying in order |
| `Sorting.DoMergeSort` | my_sort.c:136-152 | terminates; the range becomes its stable sorted arrangement, all else untouched |
| `Sorting.MyMergeSort` | my_sort.c:158-160 | the array becomes a sorted, stable permutation of its elements |
| `Sorting.SortBothWays` | my_sort.c:83-160 | both sorts of the same bytes agree, for the comparator, at every position |
| `DirTree.WalkedIsPrefix` | apue/ch04/ch04_dirent.c:93-109 | a nonzero return of the callback stops the walk at a prefix of the pre-order, and is what the walk returns |
| `DirTree.EachNodeOnce` | apue/ch04/ch04_dirent.c:61-110 | the calls other than FTW_DNR are as many as the nodes, and those that are neither FTW_DNR nor FTW_NS as many as the nodes lstat can see |
| `DirNodes.OneCallPerNode` | apue/ch04/ch04_dirent.c:61-110 | the calls other than FTW_DNR are the nodes, one each, in pre-order, each with its own node's path; with proper names no path comes twice |
| `DirNodes.PathsDiffer` | apue/ch04/ch04_dirent.c:87-98 | where names hold no slash and no directory has a name twice, different nodes have different paths |
| `DirTree.CountersAddUp` | apue/ch04/ch04_dirent.c:112-139 | over a full walk the counters add up to the nodes lstat can see |
| `DirTree.TallyCountsCalls` | apue/ch04/ch04_dirent.c:112-139 | each of the seven counters is the number of calls made for its own kind of file, in stopped walks too |
| `DirTree.EachCounter` | apue/ch04/ch04_dirent.c:112-139 | over a full walk each is the number of nodes of its own kind in the tree; directories count whether readable or not |
| `DirTree.WalkedUnlessDot` | apue/ch04/ch04_dirent.c:94-99 | an entry is walked, at its own path, unless it is "." or ".." |
| `DirTree.SmallWalk` | apue/ch04/ch04_dirent.c:61-110 | the calls for a small directory, dot entries included |
| `DirWalk.TruePaths` | apue/ch04/ch04_dirent.c:68-91 | every call names a path for which the file system says what the flag says |
| `DirWalk.OneDoublingSuffices` | apue/ch04/ch04_dirent.c:79-85 | one doubling makes room for every path the buffer can hold if and only if the buffer has at least NAME_MAX + 1 bytes, or none |
| `DirWalk.Walker.Callback` | apue/ch04/ch04_dirent.c:112-139 | the call sees the path now in the buffer, and each counter stays the number of calls of its kind |
| `DirWalk.Walker.Strcpy` | apue/ch04/ch04_dirent.c:98 | the name is put behind the prefix, terminated, inside the buffer, and the prefix stays |
| `DirWalk.Walker.Reserve` | apue/ch04/ch04_dirent.c:79-85 | the reallocation keeps the path and leaves room for a slash, a name and the terminator |
| `DirWalk.Walker.DoPath` | apue/ch04/ch04_dirent.c:61-110 | calls and return value are those of the pre-order walk of the tree; the caller's prefix survives every nested call and reallocation; no write leaves the buffer |
| `DirWalk.Walker.Descend` | apue/ch04/ch04_dirent.c:79-109 | the same from the strlen on, both for unreadable directories and for those read |
| `DirWalk.Walker.VisitEntry` | apue/ch04/ch04_dirent.c:93-102 | dot entries are skipped, any other is walked at its own path |
| `DirWalk.Walker.ReadDir` | apue/ch04/ch04_dirent.c:93-103 | the loop walks the entries in order and stops when a nested walk stops |
| `DirWalk.Walker.Myftw` | apue/ch04/ch04_dirent.c:45-59 | the walk from a starting path of any length; each counter is the number of calls of its kind, and, when nothing stopped the walk, of nodes of its kind; they sum to the lstat-able nodes |
| `Checksum.CheckSum` | my_icmp.c:16-35 | for every length the result is the two folds and complement of the word sum modulo 2^32 |
| `Checksum.InCksum` | traceroute_std.c:756-788 | the same for the signed accumulator, and none exactly when it would overflow |
| `Checksum.UnsignedBound` | my_icmp.c:18-29 | no data of a length overflows the unsigned accumulator if and only if the length is at most 131074 |
| `Checksum.SignedBound` | traceroute_std.c:764-779 | for the signed one, at most 65537 |
| `Checksum.FinishIsComplement` | my_icmp.c:31-34 | two folds always suffice: the result is 65535 minus the sum's residue modulo 65535 in 1..65535 (0 for 0) |
| `Checksum.CheckSumMeaning` | my_icmp.c:16-35 | check_sum is the complement of the ones'-complement sum of RFC 1071, section 1 |
| `Checksum.RoutinesAgree` | traceroute_std.c:756-788 | up to 65537 bytes both routines give that complement |
| `Checksum.StoredVerifies` | my_icmp.c:16-35 | data with its check_sum stored in an aligned, zeroed field sums to a check_sum of 0 |
| `Checksum.StoreAndVerify` | my_icmp.c:16-35 | computing, storing and computing again, as a sender and a receiver do, ends with 0 |
| `Checksum.ByteOrderIndependent` | my_icmp.c:16-35 | for even lengths, swapping the bytes of every word swaps the bytes of the result (RFC 1071, section 2(B)) |
| `Traceroute.PacketOk` | traceroute_std.c:671-725 | its nested tests accept exactly what quotes this source and destination port, with the kind of the error, and never a failed receive |
| `Traceroute.TruncatedAnswer` | traceroute_std.c:685-709 | an answer cut off on the way is accepted if and only if it still shows both ports |
| `Traceroute.OtherProtocol` | traceroute_std.c:706 | an error about anything but UDP is not accepted |
| `Traceroute.ProbeHeader` | traceroute_std.c:599-620 | the header of a probe read back: version, length, ttl, protocol, both ports |
| `Traceroute.AnswerAccepted` | traceroute_std.c:599-725 | a router's answer to probe q, awaited by probe s, is accepted exactly when the two probes have one port modulo 65536, and with the right kind |
| `Traceroute.PortsDistinct` | traceroute_std.c:616-617 | the destination ports of the first n probes are distinct if and only if n is at most 65536 |
| `Traceroute.AcceptedIsCurrent` | traceroute_std.c:696-709 | within that bound an accepted reply answers the probe just sent, whatever was delayed, duplicated or reordered |
| `Traceroute.StaleReplyAccepted` | traceroute_std.c:616-617 | one probe more, and a late answer to the first is accepted for the last |
| `Traceroute.AwaitReply` | traceroute_std.c:526-566 | the wait loop passes over rejected packets and yields the first accepted one, or none |
| `Traceroute.FirstAccepted` | traceroute_std.c:526-566 | the reply printed for a probe is the first accepted packet, all before it being passed over |
| `Traceroute.AnswerCounts` | traceroute_std.c:534-562 | by ICMP code: 3 and 2 count as the destination's answer, 0, 1, 4 and 5 as unreachable, every other code and "time exceeded" as neither |
| `Traceroute.ProbeLine` | traceroute_std.c:513-570 | one line: the replies to its probes in order, with the tallies of destination and unreachable answers |
| `Traceroute.TalliesMean` | traceroute_std.c:534-562 | the two tallies count by type and code of the packets |
| `Traceroute.LineHas` | traceroute_std.c:513-570 | a line has the replies to its probes and no others |
| `Traceroute.PrintedInOrder` | traceroute_std.c:512-574 | everything printed stands in the order of the probes, one reply each at most |
| `Traceroute.Trace` | traceroute_std.c:512-574 | the lines come out one per ttl up to the one that stops the run, and every probe of a line goes out with its ttl and its own port |
| `Traceroute.RunStopsIff` | traceroute_std.c:572-573 | a run stops behind a line exactly if it is the last allowed, or has an answer of code 3 or 2, or all its probes but one at most were answered with code 0, 1, 4 or 5 |
| `Traceroute.DestinationEndsRun` | traceroute_std.c:535-541 | one answer of code 3 or 2 on the line, and no further line is printed |
| `Traceroute.RunGoesOn` | traceroute_std.c:512-574 | a line of "time exceeded" answers and timeouts does not end a run of two probes a line, nor one host unreachable among them a run of three |
| `Traceroute.EveryLineIsTrue` | traceroute_std.c:512-574 | every reply on the line of a ttl answers a probe sent with that ttl, whatever is delayed, reordered or duplicated, for at most 65536 probes in all |
| `Traceroute.SingleProbeStopsAtOnce` | traceroute_std.c:572-573 | with at most one probe a line every run ends after the first ttl |
| `Traceroute.LinesAreTrueIff` | traceroute_std.c:512-574 | every line that any run over a genuine network prints is true, if and only if there are at most 65536 probes in all or at most one a line |
| `Rendezvous.StepKeepsInv` | apue/lib/tellwait.c:12-63 | every access and every signal, spurious ones included, keeps the rendezvous invariant |
| `Rendezvous.RunsKeepInv` | apue/ch14/ch14_deadlock.c:24-37 | it holds in every run of the two processes |
| `Rendezvous.WaitFollowsTell` | apue/lib/tellwait.c:35-45 | a WAIT returns only after the partner's TELL |
| `Rendezvous.ToldIsLeftAlone` | apue/lib/tellwait.c:29-39 | whatever the partner and the system do, and however much of it, a process that has been told stays as it is |
| `Rendezvous.TellIsNotLost` | apue/lib/tellwait.c:24-40 | a process that was told, before the test of the flag, between the test and sigsuspend, or after, is never left suspended; whatever else happens in between, three accesses of its own in the loop, five if it has not come to the loop, take it past the wait |
| `Rendezvous.MaskIsNeeded` | apue/lib/tellwait.c:24-39 | without the blocked signals a TELL between the test and sigsuspend leaves the process suspended for good, whatever follows short of a spurious return |
| `Rendezvous.FirstBytesHeld` | apue/ch14/ch14_deadlock.c:28-36 | both first bytes are locked before either second byte is asked for, and the request then is refused if the other process already waits, and waits if not |
| `Rendezvous.CircularWait` | apue/ch14/ch14_deadlock.c:24-37 | in every run a process gets the other's byte only after the other was refused and has exited |
| `Rendezvous.SaidWithoutLock` | apue/ch14/ch14_deadlock.c:4-10 | a process that has said it got the second byte has it if and only if it was not refused; if it was, the other has that byte and is blocked |
| `Rendezvous.RefusedAndSaid` | apue/ch14/ch14_deadlock.c:4-10 | a run in which the parent, refused, says so |
| `Rendezvous.OneRefused` | apue/ch14/ch14_deadlock.c:4-10 | whenever a process is back from its second request, one of the two was refused |
| `Rendezvous.Pair.TellPartner` | apue/lib/tellwait.c:29-33 | the signal sets the flag, wakes the suspended, or is held pending while masked |
| `Rendezvous.Pair.WaitPartner` | apue/lib/tellwait.c:35-45 | the test, the suspension with its pending signal, the clearing and the unmasking are the transitions of the model |
| `Rendezvous.Pair.LockAByte` | apue/ch14/ch14_deadlock.c:4-10 | locking, waiting, refusal on deadlock, and the release at exit |
| `Rendezvous.Pair.Execute` | apue/ch14/ch14_deadlock.c:24-37 | a whole schedule of the two processes is a run of the model, keeps the invariant, and lets nobody finish unless one of the two was refused |
| `Popen.ChildExec` | apue/lib/popen.c:48-66 | the child has the pipe on its standard descriptor and nowhere else, no earlier popen stream, and everything else it inherited; for "r" descriptor 1 is the writing end if and only if 1 is no earlier stream, and 0 is the parent's; for "w" 0 is the reading end if and only if 0 is none, and 1 is the parent's |
| `Popen.ChildLosesItsPipe` | apue/lib/popen.c:48-66 | a session of two popens in which the second child has neither a standard input nor the pipe |
| `Popen.PopenLeaks` | apue/lib/popen.c:37-84 | what a popen leaves open: its own end on success, both ends when fork fails, one when fdopen fails, nothing otherwise; what was open stays |
| `Popen.PcloseTakes` | apue/lib/popen.c:108-116 | a pclose takes the stream and its descriptor in any case, its child exactly if the stream was flushed and waitpid, interrupted or not, came to report it |
| `Popen.PopenKeepsInv` | apue/lib/popen.c:37-84 | however popen comes out, streams stay pipe ends with a child each of their own that is still to be waited for |
| `Popen.RunsKeepInv` | apue/lib/popen.c:9-117 | so after every sequence of calls |
| `Popen.EachChildOnce` | apue/lib/popen.c:103-116 | over every sequence of calls, children forked = children waited for + children still to wait for, so none is waited for twice |
| `Popen.StreamKeepsChild` | apue/lib/popen.c:83-103 | whatever else is opened and closed in between, the stream of a popen keeps that popen's child until it is pclosed |
| `Popen.Parent.constructor` | apue/lib/popen.c:9 | no table and no streams at first |
| `Popen.Parent.Open` | apue/lib/popen.c:16-85 | popen succeeds exactly for a valid type, descriptors below open_max and successful system calls; table and streams agree afterwards; the stream is the opposite end of the pipe the child has: reading for "r", writing for "w" |
| `Popen.Parent.Fork` | apue/lib/popen.c:46-84 | the part from fork on, for each way it can come out, with the two ends of the pipe |
| `Popen.Parent.Close` | apue/lib/popen.c:87-117 | pclose refuses what popen did not open, drops the stream and its entry, waits for the stream's own child through interruptions, and returns its status or -1 |
| `Popen.Session` | apue/lib/popen.c:9-117 | over any sequence of calls `childpid` is nonzero exactly at the streams opened and not yet closed, and holds their children |
| `BarrierMerge.ComLongOrders` | apue/ch11/ch11_pthread_barrier.c:22-34 | -1, 0 and 1 for less, equal and greater |
| `BarrierProgram.SmallestHead` | apue/ch11/ch11_pthread_barrier.c:56-62 | the search finds the first segment with a least head, or tells that every head is LONG_MAX |
| `BarrierMerge.MergeTake` | apue/ch11/ch11_pthread_barrier.c:63-64 | taking the least head keeps: indices inside their segments and adding up to the numbers put out, output sorted and no greater than the rest, nothing lost |
| `BarrierMerge.NothingFound` | apue/ch11/ch11_pthread_barrier.c:56-62 | no segment is chosen only if some number is not below LONG_MAX |
| `BarrierProgram.TailFound` | apue/ch11/ch11_pthread_barrier.c:56-64 | the first turn that chooses no segment goes on behind the greatest number below LONG_MAX, in the last segment that has it |
| `BarrierProgram.TailDecides` | apue/ch11/ch11_pthread_barrier.c:63-64 | the lows in order and then a tail of the right length are correct exactly when the tail is LONG_MAX only |
| `BarrierProgram.MergeTurn` | apue/ch11/ch11_pthread_barrier.c:54-65 | one turn of the outer loop, with a fresh or a stale index, keeps the state of the merge or reads something unset or past the end |
| `BarrierProgram.StartsAscend` | apue/ch11/ch11_pthread_barrier.c:51-53 | the starts of the segments ascend from 0 to the end |
| `BarrierProgram.Merge` | apue/ch11/ch11_pthread_barrier.c:47-66 | for any NTHR and TNUM and sorted segments: every turn chooses a segment if and only if all numbers are below LONG_MAX, and then the result is a sorted permutation; otherwise it says exactly when nothing unset or past the end is read, what then comes out, and when that is right |
| `BarrierProgram.WrongOutcome` | apue/ch11/ch11_pthread_barrier.c:54-65 | for the segments 1, 0 and LONG_MAX the merge is defined and puts out 0, 1, 0 |
| `BarrierProgram.PastTheEnd` | apue/ch11/ch11_pthread_barrier.c:54-65 | for the segments LONG_MAX and 0 it reads past the end |
| `Equations.FindRoot` | leetcode/equations.c:127-137 | the loop terminates and amounts to following two links |
| `Equations.JoinRespects` | leetcode/equations.c:87-102 | recording an equality links only variables that are equal in every assignment meeting the equalities |
| `Equations.TableIsSound` | leetcode/equations.c:79-104 | every link of the table is a consequence of the equalities read so far, and links only lead to variables that were seen |
| `Equations.RejectionIsSound` | leetcode/equations.c:106-121 | a rejected system has no solution |
| `Equations.ExactDecides` | leetcode/equations.c:106-123 | when variables made equal all have one root, the answer is right |
| `Equations.StaysExactIff` | leetcode/equations.c:87-94 | after one more equality that is still so if and only if the guard held: same root, a side not seen before, or the right side's class hanging flat on its root or on the variable itself |
| `Equations.GuardedRunsDecide` | leetcode/equations.c:71-125 | as long as the guard holds at every equality the checker decides satisfiability |
| `Equations.RightForAllIffExact` | leetcode/equations.c:71-125 | after given equalities, the answer is right for every inequation that may follow if and only if variables made equal have one root |
| `Equations.DecidesAllIffExact` | leetcode/equations.c:71-125 | after given equalities, every system of inequations that may follow is decided rightly if and only if variables made equal have one root |
| `Equations.AcceptsAContradiction` | leetcode/equations.c:127-137 | six entries without a solution that are accepted |
| `Equations.JoinInPlace` | leetcode/equations.c:82-102 | the assignments to the array, through two finds and the saved parent, are that recording |
| `Equations.EquationsPossible` | leetcode/equations.c:71-125 | both loops on the array, the first with its 16-bit counter: no answer if and only if there are more than 32767 entries, otherwise the acceptance defined on the entries, and false only for systems without a solution |

## Left out

- Terminals, sockets other than the descriptor protocol, raw I/O, daemons, logging, printing and the `main` drivers: system-call plumbing without a property of its own.
- The kernel is modelled only where the code relies on it: POSIX.1 `semop`, `semctl`, exit undo, signals, record locks, descriptors. Undo at exit is one atomic step; a semaphore value over the system's maximum (ERANGE) and an array too long (E2BIG) do not occur; ids are not reused.
- Liveness and fairness: all results are safety of finite runs.
- Fork inheriting an open semaphore, and semaphore calls from signal handlers.
- `translate` is an arbitrary function on bytes; reads and writes of the pipeline's requests are complete except for the last block; request errors (which end the program) are not events.
- Failing malloc and realloc, and int overflow of `size * elem_size`: the code stops or is outside the ranges it is written for.
- `heapsort` and the barrier itself are not part of this model; sorted segments are the merge's precondition.
- traceroute's options, timing, `lastaddr` and output; the ident field of the IP header, which nothing reads back.
- `time_offset` and `icmp_pack` of `my_icmp.c`, `ch12_mutexattr.c`, `read_column_numbers.c`, `ch15_popen_pclose.c`: the code departs from its evident intent.
- `mystack.h`, `my_array_list.c`, `lsearch.c`, `readn`, `buf_args`, `foo_hold`, `foo_rele`: easier than, or covered by, what is here.
- Equations.GuardedRunsDecide: one direction over whole runs, because an equality lost at one step can be read again later; step by step the condition is exact (StaysExactIff), and at the end of the first loop too, over all inequations that may follow (DecidesAllIffExact).
- DirWalk.Walker.Callback: the messages, and the `err_dump` for a directory reported as FTW_F, which dopath cannot cause, are not modelled.
- DirWalk.Walker.DoPath: the tree does not change during the walk, because otherwise no pre-order is defined.
- The rendezvous is one TELL and one WAIT on each side, as in the program that uses it; a second TELL before the first WAIT is not modelled.
- Popen.Parent.Open: streams are closed only by pclose, because closing the descriptor otherwise makes the table wrong by design.
