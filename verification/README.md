# A virtual machine kernel, its file system and its copy program, verified

The repository is a small operating system kernel that runs as one process: a priority scheduler with
mutexes and timed waits, memory pools, a FAT16 file system with a write-back cluster cache, path
functions, and programs on top of it, among them a producer/consumer file copy. This project states in
Dafny what that code does and proves what it is for. `dafny verify dfyconfig.toml` checks all of it.

Every component has two layers. The lower one is a function on values that follows the code branch by
branch; the theorems about whole runs are about these functions. The upper one is the code in its own
form: classes whose methods assign fields, loops over arrays, in-place stores. Each method is proved to
change its object exactly as the function says (`View() == F(old(View()))`), so the theorems are about
the objects, too.

| component | functions and theorems | in the code's form |
|---|---|---|
| scheduler, mutexes, timed waits | `Kernel`, `KernelSafety`, `KernelQueues`, `KernelTimely`, `KernelRuns`, `KernelLate`, `KernelTiming`, `KernelTimeout`, `KernelOrder`, `KernelAnswers` | `Scheduling` (Scheduler.dfy), `KernelCalls` |
| FAT16 file engine | `Fat`, `FatFiles`, `FatRuns`, `FatDisk` | `FileEngine` (FileSystem.dfy), `FileCalls` |
| memory pools | `Pool`, `PoolRuns` | `MemoryPools` (MemoryPool.dfy) |
| paths and long file names | `Paths`, `RelativePaths`, `LongName` | `PathBuffers`, `LongName` |
| copy program | `Copy`, `CopyRuns` | `CopyObjects`, `CopyProgram` |

## How the kernel is modelled

`Kernel.Sys` is the kernel's state: threads, four ready queues, four waiting queues, mutexes with a wait
queue for each priority, the running thread. Entry points run with signals suspended, so each is one
step. The one that is not is `VMMutexAcquire`, which a context switch cuts in two; `Kernel.World` adds
which threads are inside it, and which have a file request outstanding. A run is any sequence of enabled
steps, alarms and replies coming at any time. `Enabled` states what clients owe: no thread asks to wait
for a mutex it owns, idle is not terminated, a thread with an outstanding reply is not activated again,
and a deleted thread is referred to by nothing any more.

The code has two properties the theorems have to respect. Idle is put into the ready queue twice at
boot, so its invariant is that the copies in queue 0 and the running one are two. And a waiter whose
timeout runs out becomes ready but stays in the mutex's own queue until it runs next, so a release in
between makes it ready a second time. A step is called timely (`KernelQueues.Timely`) when no mutex it
hands over goes to a thread that is ready already and no dead thread that a mutex still queues is
activated.

- For all runs and all timeouts: mutual exclusion, lasting ownership, priority dominance, the order of
  waiters, and that a free mutex has no waiters.
- Every thread is in one place all along a run if and only if every step of it is timely
  (`KernelTimely.InPlaceIffTimely`). Runs in which every acquire waits for ever or not at all are timely,
  and so is every run of the variant `leave == true`, in which expiry also leaves the mutex's queue
  (`KernelTimely.PromptRunsAreTimely`).
- For timely runs: each thread is in the queues its control block names, a deleted mutex leaves no
  acquirer behind, an endless acquire never fails, sleeps are exact, and so are timed waits: an acquire of
  n ticks to which the mutex does not come waits to exactly the n-th alarm and then fails
  (`KernelTimeout.AcquireTimesOut`).
- Runs that are not timely and show, for each of these, that it then fails: a thread ready twice, an
  acquirer that runs with its mutex deleted, a delete that leaves a ready acquirer behind (one that was
  terminated and is ready all the same), an endless acquire that returns failure, and a sleep of nine
  ticks that ends at once (`KernelLate`).

`KernelAnswers` says of each entry point, for every state that a run can reach, what each status means and
what the records are afterwards, without naming the functions that compute them.

## How files are modelled

A volume is the allocation table and the bytes of its clusters, whether cached or not. A file is a first
cluster, a size and a pointer; its contents are the bytes of its chain, cut to its size.
`FatRuns.RunMirrors` says that over any run creating, reading, writing, seeking and reopening files gives
the answers that plain byte sequences with a cluster quota give, on a table of any size. The quota counts
the free clusters below and above 0xFFF apart, because the guard in the write loop treats them
differently. `FatDisk` adds where the bytes are: cache or disk, and what shutting down writes and
mounting reads. A volume may have fewer clusters than its table has entries, as the default image has
(`FatDisk.ShippedExtent`: numbers below 4098, of 4352 entries); `FatDisk.Extent` is how many it has, and
the file calls are proved for files that lie on the volume.

What is on the disk is also stated in numbers: `FatDisk.MountReadsBytes` reads the table, the root
directory and the place of every cluster off the bytes of the boot sector, `FileEngine.EntryInBytes` and
`LongName.EntriesInBytes` give the bytes of directory entries, and `FatRuns.WriteCounts` and
`FatRuns.ChainInNumbers` use the words of the table.

`Room`, `Before` and `Offset` are multiplication, quotient and remainder by counting
(`Fat.RoomIsProduct`, `Fat.BeforeIsQuotient` say so); the proofs go faster that way.

Found on the way, each with a lemma:

- A write that starts exactly at the end of a file's last cluster begins with the end marker as its
  cluster number; such a pointer is what a write that fills the last cluster leaves behind
  (`FatRuns.WriteStartsInTable`, `FatRuns.FillingStrandsPointer`).
- The guard behind a newly linked cluster compares with 0xFFF, so on larger tables a write can stop while
  clusters are free; `FatRuns.WriteIsCompleteIff` says exactly when it does not.
- The search for a free cluster looks at all entries of the table, also at those for clusters the volume
  does not have. Files stay on the volume if and only if the volume itself has free what a call takes
  (`FatRuns.CreateStaysIff`, `FatRuns.WriteStaysIff`).
- The pointer of a seek is unsigned, so the test for a negative one in the code never succeeds. A position
  below zero wraps to 2^32 less its distance, which is past the end of any file of less than 2 GB; one of
  2^32 or more wraps to the front. A seek stops at both ends of the file exactly if the position
  is neither of these, or the file is empty (`FatFiles.SeekClampsIff`).
- A file created with no cluster free has no first cluster (`FatRuns.CreateNeedsFree`).
- The constant 17 in the write-back of the table's second copy is right for 17-sector tables
  (`FatDisk.SecondCopyMirrors`); the round trip holds for any table whose second copy, placed there, does
  not reach the data region.
- Rounding an allocation up to 64 wraps for requests above 2^32 - 64 (`Pool.RoundingHoldsIff`). Such a
  request leaves an allocated segment without a byte; the pool stays well formed over a run, and no search
  runs off the free list, if and only if none is made while anything is free (`PoolRuns.RunKeepsIff`).
- Freeing such an empty segment reads past the end of the free list when one segment is free, as in a fresh
  pool (`PoolRuns.FreshPoolRunsOff`), and otherwise puts the empty segment into the list
  (`PoolRuns.EmptyGoesBack`). Freeing what was just allocated gives back the same pool if and only if the
  request did not wrap (`PoolRuns.FreeUndoesAllocate`).
- The check before a pool is deleted adds up free bytes, so a pool in which only empty segments are
  allocated is deleted (`PoolRuns.DeleteCheckMisses`); `PoolRuns.DeleteCheckIsExact` is the exact condition,
  for all runs (`PoolRuns.RunAccounts`).
- The mount test gives RelativePath a buffer of 256 bytes, which the text of a "./" path can overrun: the
  mount "/" and a name of 255 characters need 258 (`RelativePaths.RootOverruns`). It fits if and only if
  there is no path, it goes up, or what follows is shorter than 254 characters, or so long that it is
  not written (`RelativePaths.RelativeFitsIff`). With a mount that is not absolute and a path that is,
  nothing is written at all, and the test looks at an unset buffer (`RelativePaths.NoRouteIff`).

## Model

| member | source | states |
|---|---|---|
| `KernelSafety.StepKeeps` | VirtualMachine.cpp:1040-1323 | every entry point, alarm and reply keeps the kernel invariant: owners and holders agree, waiters are known and queue at their own priority, a free mutex has none, idle is there twice, the running thread dominates, for all timeouts |
| `KernelSafety.RunKeeps` | VirtualMachine.cpp:481-492 | so does every run |
| `KernelSafety.StartInv` | VirtualMachine.cpp:521-545 | the state after boot satisfies it |
| `KernelSafety.RegrantKeeps` | Mutex.cpp:25-46 | handing a mutex over keeps owners, holders and waiters consistent |
| `KernelSafety.ScheduleNextKeeps` | Scheduler.cpp:161-182 | dispatching keeps them, too, and runs a thread that every ready one is at most as urgent as |
| `KernelSafety.ReleaseKeeps` | VirtualMachine.cpp:2177-2224 | a release keeps the invariant, dominance included |
| `KernelSafety.AcquireKeeps` | VirtualMachine.cpp:2123-2164 | so does an acquire up to its context switch |
| `KernelSafety.TerminateKeeps` | VirtualMachine.cpp:1143-1224 | and a termination, which hands over every mutex the thread holds |
| `KernelSafety.AlarmKeeps` | Scheduler.cpp:110-158 | and an alarm, with both sweeps |
| `KernelRuns.MutualExclusion` | Mutex.cpp:25-52 | in every run a locked mutex is held once, by its owner and nobody else, and a free one has no waiters |
| `KernelRuns.DeleteIsSafe` | VirtualMachine.cpp:2067-2089 | in a timely run, a successful delete leaves no holder and no waiter behind, and nobody who will run again inside an acquire of the mutex |
| `KernelRuns.DeletableIff` | VirtualMachine.cpp:1074-1110 | in a timely run, a dead thread that has no file request outstanding and stands in no mutex queue is referred to by nothing else, so it may be deleted, and only then |
| `KernelRuns.AcquirersFindMutex` | VirtualMachine.cpp:2164-2172 | in a timely run of the code as written, an acquirer that runs again finds its mutex, whatever its timeout |
| `KernelRuns.InfiniteAcquireSucceeds` | VirtualMachine.cpp:2147-2172 | in a timely run, an endless acquire that blocked owns its mutex when it runs again; it never returns failure |
| `KernelRuns.OwnerStays` | VirtualMachine.cpp:2193-2219 | one step other than its release or termination does not take a mutex from its owner |
| `KernelRuns.OwnerStaysThroughout` | VirtualMachine.cpp:2164-2224 | nor does any run of such steps |
| `KernelRuns.PriorityDominance` | VirtualMachine.cpp:1129-1137 | in every run the running thread is at least as urgent as every ready one, and a dispatch finds a thread |
| `KernelTimely.InPlaceIffTimely` | Scheduler.cpp:136-157 | over any run, with any timeouts: every thread but idle is in one place at most and queues for a mutex only from inside its acquire, in every state of the run, if and only if every step is timely |
| `KernelTimely.UntimelyShows` | VirtualMachine.cpp:2193-2207 | one step that is not timely puts a thread in two places, or leaves one in the queue of a mutex it is not acquiring |
| `KernelTimely.RunQueues` | Scheduler.cpp:59-108 | in every state of a timely run each thread is exactly where its control block says |
| `KernelTimely.PromptRunsAreTimely` | Scheduler.cpp:136-157 | runs with endless and immediate timeouts are timely, and all runs of the variant |
| `KernelTimely.PromptRunQueues` | Mutex.cpp:48-69 | in them a thread stands in a queue of a mutex exactly if it wants that mutex |
| `KernelLate.LateGrantQueuesTwice` | Scheduler.cpp:145-154 | a run with a finite timeout after which a thread is in its ready queue twice; it is not timely |
| `KernelLate.LateGrantDangles` | VirtualMachine.cpp:2164-2172 | that run goes on to where a thread runs inside an acquire of a deleted mutex |
| `KernelLate.RevivalLeavesAcquirer` | VirtualMachine.cpp:1166-1187 | a run that is not timely and ends with a terminated thread ready, inside an endless acquire of a mutex that can be deleted |
| `KernelLate.LateGrantFailsEndless` | VirtualMachine.cpp:2164-2172 | the run of LateGrantQueuesTwice can also go on to where an endless acquire returns failure |
| `KernelLate.LateGrantCutsSleep` | VirtualMachine.cpp:1283-1291 | or to where a thread runs that has just gone to sleep for nine ticks |
| `KernelQueues.StepQueues` | Scheduler.cpp:59-108 | a timely step keeps every thread but idle in exactly one place: running, one ready queue, one waiting queue, or dead and in none, as its state field says, and in a mutex queue only from inside its acquire |
| `KernelQueues.StartQueues` | VirtualMachine.cpp:521-545 | it holds after boot |
| `KernelTiming.SweepIsPartition` | Scheduler.cpp:110-133 | the loop that erases while it iterates is a stable partition of the sleepers |
| `KernelTiming.SweepTicksOnce` | Scheduler.cpp:113-132 | each sleeper is decremented once and never below zero |
| `KernelTiming.AlarmPartitionsSleepers` | VirtualMachine.cpp:481-488 | in a timely run, one alarm does exactly that |
| `KernelTiming.AlarmTicksSleeper` | Scheduler.cpp:118-128 | an alarm takes one tick off a sleeper and wakes it at its last |
| `KernelTiming.SleeperUndisturbed` | VirtualMachine.cpp:1266-1294 | nothing but an alarm or its own termination touches a sleeper |
| `KernelTiming.SleepsUntilTheAlarm` | VirtualMachine.cpp:1283-1291 | in a timely run, a thread that sleeps n ticks is asleep up to exactly the n-th alarm |
| `KernelTiming.SleepSleeps` | VirtualMachine.cpp:1266-1294 | a sleep of n ticks puts the caller to sleep for n ticks |
| `KernelTiming.WaiterUndisturbed` | VirtualMachine.cpp:2147-2164 | nothing but an alarm, its own termination or a hand-over of the mutex it waits for touches a waiter |
| `KernelTimeout.AcquireWaits` | VirtualMachine.cpp:2147-2164 | an acquire of a locked mutex makes the caller wait for it for n ticks, or without end |
| `KernelTimeout.TurnEndsWaitIff` | Scheduler.cpp:139-157 | one turn of the sweep in any state: exactly when it ends a wait, and how the clock wraps |
| `KernelTimeout.AlarmTicksWaiter` | Scheduler.cpp:136-157 | an alarm takes one tick off a thread that waits for a mutex, and ends the wait at its last |
| `KernelTimeout.WaitsUntilTheAlarm` | Scheduler.cpp:136-157 | in a timely run, a thread that waits n ticks for a mutex that does not come to it waits up to exactly the n-th alarm, which makes it ready |
| `KernelTimeout.WaitsForEver` | Scheduler.cpp:136-157 | in a timely run, no alarm touches an endless waiter |
| `KernelTimeout.LateFails` | VirtualMachine.cpp:2164-2172 | in a timely run, once its time is up a waiter is not given the mutex any more, and its acquire returns failure |
| `KernelTimeout.AcquireTimesOut` | VirtualMachine.cpp:2123-2174 | from the call to its failure: n alarms, then ready, then the status |
| `KernelOrder.FirstComeFirstServed` | Mutex.cpp:25-45 | over any run, while a waiter stands in a mutex's queue once it stays ahead of later waiters of its priority; the next grant goes to the highest waiting priority |
| `KernelOrder.StepInOrder` | Mutex.cpp:48-69 | no step reorders the waiters of a mutex, unless one of them queues once more |
| `KernelOrder.PickedInTurn` | Scheduler.cpp:161-173 | a thread at index k of its ready queue sees at most k picks from that queue before its own |
| `KernelAnswers.CreateAnswers` | VirtualMachine.cpp:1040-1072 | a new thread has the next id and the priority asked for and is dead; nothing else changes |
| `KernelAnswers.DeleteAnswers` | VirtualMachine.cpp:1074-1110 | each status exactly when, and what is deleted |
| `KernelAnswers.ActivateAnswers` | VirtualMachine.cpp:1112-1141 | each status exactly when; the thread is ready behind those of its priority, or runs in place of a less urgent caller |
| `KernelAnswers.TerminateStatus` | VirtualMachine.cpp:1143-1163 | each status exactly when |
| `KernelAnswers.TerminateAnswers` | VirtualMachine.cpp:1165-1224 | in a timely run, the thread is dead and holds nothing, each of its mutexes went to the first in line, all others stay with their owners, and who runs |
| `KernelAnswers.SleepAnswers` | VirtualMachine.cpp:1266-1294 | each status exactly when, and where the caller goes |
| `KernelAnswers.SubmitAnswers` | VirtualMachine.cpp:1301-1323 | a file request puts the caller last in the queue for files |
| `KernelAnswers.ReplyAnswers` | VirtualMachine.cpp:1301-1323 | a reply makes the thread ready, or run if it is more urgent, and leaves a dead one alone |
| `KernelAnswers.AlarmRotates` | VirtualMachine.cpp:481-492 | with no timer running, an alarm lets threads of one priority take turns |
| `KernelAnswers.MutexCreateAnswers` | VirtualMachine.cpp:2046-2065 | a new mutex has a new id, is free and has no waiters |
| `KernelAnswers.MutexDeleteAnswers` | VirtualMachine.cpp:2067-2089 | each status exactly when, and what is deleted |
| `KernelAnswers.AcquireAnswers` | VirtualMachine.cpp:2123-2164 | each outcome exactly when, and what it says of ownership: success if and only if the caller owns the mutex by it, failure if and only if it was locked and the timeout immediate |
| `KernelAnswers.ResumeAnswers` | VirtualMachine.cpp:2164-2174 | the status after the wait is success if and only if the caller owns the mutex |
| `KernelAnswers.ReleaseAnswers` | VirtualMachine.cpp:2177-2224 | each status exactly when; the mutex goes to the first in line, who is ready, or runs if more urgent than the caller |
| `Scheduling.Scheduler.Boot` | VirtualMachine.cpp:521-545 | the object after VMStart is the boot state, with idle made ready twice |
| `Scheduling.Scheduler.AddToReady` | Scheduler.cpp:59-63 | the object changes as Kernel.AddToReady says |
| `Scheduling.Scheduler.RemoveFromReady` | Scheduler.cpp:65-81 | the erase loop equals the erasing function |
| `Scheduling.Scheduler.RemoveFromWaiting` | Scheduler.cpp:89-108 | the erase loop equals the erasing function |
| `Scheduling.Scheduler.ProcessAllWaiting` | Scheduler.cpp:110-158 | both in-place sweeps equal the two sweep functions |
| `Scheduling.Scheduler.ScheduleNext` | Scheduler.cpp:161-182 | the search from the highest queue down and the pop equal the dispatch function |
| `Scheduling.Scheduler.GetNextOwner` | Mutex.cpp:25-46 | the search for the next owner and the ownership fields it sets |
| `Scheduling.Scheduler.StopWaiting` | Mutex.cpp:55-69 | the erase loop over the wait queues |
| `KernelCalls.VMThreadCreate` | VirtualMachine.cpp:1040-1072 | a new dead thread with the given priority |
| `KernelCalls.VMThreadDelete` | VirtualMachine.cpp:1074-1110 | status and state after deleting a thread |
| `KernelCalls.VMThreadActivate` | VirtualMachine.cpp:1112-1141 | status and state, with the switch to a more urgent thread |
| `KernelCalls.VMThreadTerminate` | VirtualMachine.cpp:1143-1224 | status and state, with the release loop and the unqueueing by old state |
| `KernelCalls.VMThreadSleep` | VirtualMachine.cpp:1266-1294 | status and state, the two special tick values included |
| `KernelCalls.AlarmHandler` | VirtualMachine.cpp:481-492 | the object after an alarm |
| `KernelCalls.FileHandler` | VirtualMachine.cpp:1301-1323 | the object after a reply |
| `KernelCalls.VMMutexAcquire` | VirtualMachine.cpp:2123-2164 | outcome and state up to the context switch |
| `KernelCalls.AcquireResume` | VirtualMachine.cpp:2164-2174 | status and state behind it, the mutex still there or not |
| `KernelCalls.VMMutexRelease` | VirtualMachine.cpp:2177-2224 | status and state after a release |
| `KernelCalls.VMMutexDelete` | VirtualMachine.cpp:2067-2089 | status and state after a delete |
| `KernelCalls.Perform` | VirtualMachine.cpp:1112-1323 | the objects follow any enabled step of any run and stay ready for the next |
| `Fat.HopWalksChain` | VirtualMachine.cpp:1325-1347 | FatSearch(first, n) is the n-th cluster of the chain, and the end marker one past it |
| `Fat.ExtendGrows` | VirtualMachine.cpp:1937-1946 | linking the first cluster whose word is 0 makes the chain longer by exactly it, marks it 0xFFFF and changes no other entry |
| `Fat.ReadTail` | VirtualMachine.cpp:1698-1746 | the read loop delivers exactly the slice of the chain asked for |
| `Fat.WriteGrows` | VirtualMachine.cpp:1898-1960 | the write loop leaves a well-formed chain grown by free clusters only, nothing else changed, free plus chained clusters the same |
| `Fat.WriteBytes` | VirtualMachine.cpp:1907-1931 | it puts the message at the offset and keeps all other bytes of the chain |
| `Fat.WriteCount` | VirtualMachine.cpp:1897-1960 | it writes all of the message or all that the chain and the free clusters below the guard hold |
| `Fat.WriteLinks` | VirtualMachine.cpp:1933-1958 | how many clusters it adds, on a table of any size: those below the guard that the message needs, and one more from above it if the message then still goes on |
| `Fat.BeforeIsQuotient` | VirtualMachine.cpp:1695-1697 | cluster index and offset are the quotient and the remainder of the pointer |
| `FatFiles.ReadIsSlice` | VirtualMachine.cpp:1682-1753 | a read returns contents[ptr .. min(ptr + len, size)], moves the pointer and changes nothing else |
| `FatFiles.WriteAtKeeps` | VirtualMachine.cpp:1882-1967 | a write keeps the table of files well formed: acyclic, disjoint, closed chains, sizes within them |
| `FatFiles.WriteAtOther` | VirtualMachine.cpp:1882-1967 | and every other file keeps its chain and contents |
| `FatFiles.SeekAnswers` | VirtualMachine.cpp:2014-2038 | where each of the three kinds of seek goes, as a number |
| `FatFiles.SeekClampsIff` | VirtualMachine.cpp:2014-2038 | a seek stops at both ends of the file if and only if it aims at a position that fits the unsigned pointer or the file is empty, and where it goes otherwise |
| `FatFiles.ChainBytesFit` | VirtualMachine.cpp:1966-1969 | a file never outgrows the four bytes of its size field |
| `FatRuns.WriteSplices` | VirtualMachine.cpp:1882-1970 | one write on a table of any size: bytes, count, size, pointer, other files and conservation, all exact |
| `FatRuns.WriteCounts` | VirtualMachine.cpp:1897-1960 | the count in numbers: the message, or the bytes of the chain behind the pointer and of the free clusters below 0xFFF |
| `FatRuns.WriteIsCompleteIff` | VirtualMachine.cpp:1950-1954 | the write takes all it could if and only if the message fits in the clusters below 0xFFF or no other is free |
| `FatRuns.ChainInNumbers` | VirtualMachine.cpp:1325-1347 | a chain in the words of the table, closed by 0xFFF7 or more |
| `FatRuns.CreateAnswers` | VirtualMachine.cpp:1405-1414 | a new file is empty, on the first cluster whose word is 0, which is 0xFFFF then |
| `FatRuns.CreateNeedsFree` | VirtualMachine.cpp:1405-1414 | a new file keeps the table well formed if and only if a cluster is free |
| `FatRuns.StepMirrors` | VirtualMachine.cpp:1419-2038 | one operation answers as byte sequences with a quota do, and stays in step with them |
| `FatRuns.RunMirrors` | VirtualMachine.cpp:1419-2038 | so does every run of operations, on a table of any size |
| `FatRuns.RunsFromTable` | VirtualMachine.cpp:1419-2038 | and from any well-formed table of files such a run exists, with every cluster accounted for at its end |
| `FatRuns.RunConserves` | VirtualMachine.cpp:1405-1414 | free clusters and the clusters of all chains are together the same number after any run |
| `FatRuns.WriteStartsInTable` | VirtualMachine.cpp:1886-1888 | the first cluster of a write is in the table if and only if the pointer is before the end of the chain |
| `FatRuns.FillingStrandsPointer` | VirtualMachine.cpp:1886-1897 | a write that fills the last cluster leaves a pointer for which it is not |
| `FatRuns.CreateStaysIff` | VirtualMachine.cpp:1405-1414 | a new file's cluster lies on the volume if and only if one below the volume's end is free |
| `FatRuns.WriteStaysIff` | VirtualMachine.cpp:1937-1946 | after a write all files lie on the volume if and only if it had free all the clusters the write links |
| `FatDisk.SeekPosition` | VirtualMachine.cpp:382-382 | the sector a cluster begins at is the seek position in the code |
| `FatDisk.ExtentExact` | VirtualMachine.cpp:377-397 | a cluster number is below the extent if and only if its sectors are all on the image |
| `FatDisk.MountReadsBytes` | FileSystem.cpp:73-165 | table size, root directory, data region and cluster size from the bytes of the boot sector, and every entry of the table as the word at its place |
| `FatDisk.MountableInBytes` | FileSystem.cpp:73-104 | which boot sectors the model deals with, in bytes |
| `FatDisk.ShutdownWritesBytes` | FileSystem.cpp:31-38 | after a shutdown each word of the table is at its place on the disk |
| `FatDisk.ShippedExtent` | main.c:10-10 | the default image, from the bytes of its boot sector: 4352 entries, numbers below 4098 |
| `FatDisk.ClustersApart` | VirtualMachine.cpp:377-419 | distinct clusters occupy disjoint sectors in the data region |
| `FatDisk.FetchKeeps` | VirtualMachine.cpp:361-397 | caching a cluster changes no cluster and keeps one entry for each number |
| `FatDisk.FlushWritesBlocks` | VirtualMachine.cpp:593-597 | the write-back leaves on disk what cache or disk held for every cluster |
| `FatDisk.StoreFatAt` | FileSystem.cpp:31-38 | every sector after the two-copy loop over the table |
| `FatDisk.ShutdownThenMount` | FileSystem.cpp:16-63 | mounting after a shutdown gives the same table and root directory, and the sectors of every cluster of the image hold what cache or disk held for it |
| `FatDisk.FilesSurviveRemount` | FileSystem.cpp:107-165 | so every file has the same bytes; clusters off the image count as zeros before and after |
| `FatDisk.SecondCopyMirrors` | FileSystem.cpp:36-37 | with 17-sector tables the second copy equals the first |
| `FileEngine.EntryInBytes` | FileSystem.h:24-34 | the first cluster and the size of a file are at bytes 26 and 28 of its entry, low byte first |
| `FileEngine.FileSystem.FindCached` | VirtualMachine.cpp:361-375 | the search loop finds the cached copy or says there is none |
| `FileEngine.FileSystem.LoadCluster` | VirtualMachine.cpp:377-397 | the sector loop reads the cluster |
| `FileEngine.FileSystem.Fetch` | VirtualMachine.cpp:1700-1706 | the cached copy after the call is the cluster, and no cluster has changed |
| `FileEngine.FileSystem.FatSearch` | VirtualMachine.cpp:1325-1347 | the loop computes the chain walk |
| `FileEngine.FileSystem.FileRead` | VirtualMachine.cpp:1682-1753 | data and state are those of FatFiles.Read, for files on the volume |
| `FileEngine.FileSystem.LinkFree` | VirtualMachine.cpp:1937-1946 | the in-place search and the two stores equal Fat.Extend |
| `FileEngine.FileSystem.FileWrite` | VirtualMachine.cpp:1882-1970 | count and state are those of FatFiles.Write, the size field in the directory entry included, as long as the volume has the clusters |
| `FileEngine.FileSystem.FileSeek` | VirtualMachine.cpp:2014-2038 | position and state are those of FatFiles.Seek |
| `FileEngine.FileSystem.CreateFile` | VirtualMachine.cpp:1400-1416 | state after creating: the overlapping stores into the entry and the first free cluster |
| `FileEngine.FileSystem.OpenExisting` | VirtualMachine.cpp:1515-1531 | state after opening, truncating or appending |
| `FileEngine.FileSystem.WriteCluster` | VirtualMachine.cpp:399-419 | one cached cluster written back |
| `FileEngine.FileSystem.WriteBack` | FileSystem.cpp:24-63 | the image after shutdown is FatDisk.Shutdown |
| `FileEngine.FileSystem.constructor` | FileSystem.cpp:6-22 | the object after mounting is FatDisk.Mount |
| `FileEngine.MountTable` | FileSystem.cpp:107-118 | the two loops fill the table with what the sectors hold |
| `FileCalls.Perform` | VirtualMachine.cpp:1419-2038 | any file call on the object is one operation of a run |
| `FileCalls.Remount` | FileSystem.cpp:6-63 | shutting down and mounting gives an object with the same table, root directory and bytes |
| `Pool.RoundingHoldsIff` | MemoryPool.cpp:74-74 | rounding gives the next multiple of 64 if and only if it does not wrap |
| `Pool.InsertSplices` | MemoryPool.cpp:140-216 | all branches of free and merge are one operation: the segment joined with whatever it touches |
| `Pool.InsertAdds` | MemoryPool.cpp:140-216 | it keeps the list in order with real gaps and adds exactly the freed bytes |
| `Pool.TakenRemoves` | MemoryPool.cpp:93-103 | taking from a segment removes exactly the allocated bytes |
| `PoolRuns.AllocateKeepsIff` | MemoryPool.cpp:69-109 | an allocation keeps the pool well formed if and only if its rounding does not wrap or nothing is free |
| `PoolRuns.RunKeeps` | MemoryPool.cpp:69-217 | over every run without such a request free and allocated segments tile the pool, next is base plus size, free segments have gaps, sizes add up, and no search runs off the free list |
| `PoolRuns.RunKeepsIff` | MemoryPool.cpp:69-217 | over any run they do so all along if and only if it has no such request |
| `PoolRuns.FreeListIsDetermined` | MemoryPool.cpp:140-216 | the free list is determined by the set of free bytes |
| `PoolRuns.FailsOnlyWhenFull` | MemoryPool.cpp:76-108 | allocation fails if and only if no run of the rounded size is free anywhere; a request that wraps, if and only if nothing at all is free |
| `PoolRuns.FreeUndoesAllocate` | MemoryPool.cpp:69-217 | freeing what was just allocated stays inside the free list and gives back the identical pool if and only if the request did not wrap |
| `PoolRuns.EmptyGoesBack` | MemoryPool.cpp:178-214 | freeing the empty segment of a request that wrapped stays inside the free list if and only if two segments are free, and then puts it between the first two |
| `PoolRuns.FreshPoolRunsOff` | MemoryPool.cpp:178-208 | in a fresh pool it reads past the free list |
| `PoolRuns.AnyFreeable` | MemoryPool.cpp:111-217 | in a well-formed pool freeing any address stays inside the free list |
| `PoolRuns.FreeingAllGivesWhole` | MemoryPool.cpp:111-217 | freeing all blocks in any order gives one segment, the whole pool |
| `PoolRuns.RunAccounts` | MemoryPool.cpp:69-217 | over any run that stays inside the free list, requests that wrap included, free and allocated sizes add up to the pool |
| `PoolRuns.DeleteCheckIsExact` | VirtualMachine.cpp:962-967 | what remains equals the size if and only if no allocated segment holds a byte; so it says whether anything is allocated, unless all that is allocated is empty |
| `PoolRuns.DeleteCheckMisses` | VirtualMachine.cpp:962-967 | a fresh pool that served the largest request passes the check with a segment allocated |
| `PoolRuns.DeallocateExact` | MemoryPool.cpp:111-138 | a deallocation succeeds if and only if the address is that of an allocated block, and takes that one away |
| `MemoryPools.MemoryPool.QueryRemaining` | MemoryPool.cpp:57-67 | the loop sums the free list |
| `MemoryPools.MemoryPool.AllocateMemory` | MemoryPool.cpp:69-109 | pointer and lists are those of Pool.Allocate |
| `MemoryPools.MemoryPool.DeallocateMemory` | MemoryPool.cpp:111-217 | result and lists are those of Pool.Deallocate, in any state in which it stays inside its lists |
| `MemoryPools.MayDelete` | VirtualMachine.cpp:950-974 | a pool whose sizes add up may be deleted if and only if no byte of it is allocated |
| `MemoryPools.PoolAllocate` | VirtualMachine.cpp:995-1016 | the three statuses of an allocation, each exactly when, for all 32-bit sizes and in any state of the pool |
| `MemoryPools.PoolDeallocate` | VirtualMachine.cpp:1018-1033 | the two statuses of a deallocation, each exactly when |
| `Paths.SimplifyRefinesStack` | VirtualMachineUtils.c:231-307 | on a canonical path and a relative one without empty components the buffer algorithm renders the component stack, fails if and only if a ".." pops the empty stack, and refuses if and only if a push does not fit |
| `Paths.SlashDropped` | VirtualMachineUtils.c:302-306 | with nothing to walk along, one slash at the end of the path is dropped |
| `Paths.PopShown` | VirtualMachineUtils.c:253-269 | ".." takes the last component off the buffer and fails exactly at the root |
| `RelativePaths.FindsMeeting` | VirtualMachineUtils.c:309-348 | the character loop finds a common ancestor, base itself if dest is below it |
| `RelativePaths.PathRoundTrip` | VirtualMachineUtils.c:309-374 | SimplifyPath along the path that RelativePath found arrives at dest |
| `RelativePaths.RelativeBase` | VirtualMachineUtils.c:323-338 | from a path that is not absolute: up once for every component of it |
| `RelativePaths.OnMountIsPrefix` | VirtualMachineUtils.c:138-149 | the test on the text says that a path is on a mount if and only if the mount's components begin it |
| `RelativePaths.RelativeFitsIff` | VirtualMachineUtils.c:350-373 | exactly which texts, with their terminator, fit in 256 bytes |
| `RelativePaths.RootOverruns` | VirtualMachineUtils.c:138-149 | a path the mount test takes and whose text needs 258 |
| `RelativePaths.MountWithoutRoute` | VirtualMachineUtils.c:138-149 | with the mount "mnt" and the path "/a" nothing is written to the buffer that the mount test looks at |
| `RelativePaths.NoRouteIff` | VirtualMachineUtils.c:309-331 | RelativePath fails before it writes anything if and only if the base is not absolute and the destination is |
| `RelativePaths.MountTestFitsIff` | VirtualMachineUtils.c:138-149 | when the mount test stays within its buffer, in components |
| `PathBuffers.SimplifyPathInto` | VirtualMachineUtils.c:231-307 | buffer and status are those of Paths.SimplifyPath |
| `PathBuffers.RelativePathInto` | VirtualMachineUtils.c:309-374 | buffer and status are those of RelativePaths.RelativePath, error paths included |
| `PathBuffers.GetAbsolutePath` | VirtualMachineUtils.c:127-136 | an absolute path is copied, any other simplified |
| `PathBuffers.PathIsOnMountCall` | VirtualMachineUtils.c:138-149 | the test on the first characters of the 256-byte buffer, with or without a mount point, for texts that fit |
| `LongName.NameRoundTrip` | VirtualMachine.cpp:57-250 | the entries of a name read back as that name, and reading stops behind them |
| `LongName.RecordsSuffice` | VirtualMachine.cpp:60-60 | the number of entries is the name's length in thirteens, rounded up |
| `LongName.EntriesInBytes` | VirtualMachine.cpp:66-168 | every byte of every entry of a name: number, attribute, and the thirteen places for characters |
| `LongName.CreateLfn` | VirtualMachine.cpp:57-172 | the loops write entries numbered downward, 0x40 on the first, and touch nothing else |
| `LongName.GetLfn` | VirtualMachine.cpp:174-250 | the loops read the name and return the first other entry |
| `LongName.WriteThenRead` | VirtualMachine.cpp:57-250 | writing a name and reading it back in place |
| `Copy.CodesInBytes` | apps/copyfile.c:121-147 | the codes of the two special bytes, as numbers |
| `Copy.DecodeWire` | apps/copyfile.c:167-197 | unstuffing undoes stuffing and sees the end at the end marker |
| `Copy.DecodePrefix` | apps/copyfile.c:121-197 | any beginning of the wire decodes to a beginning of the source, done exactly at its end |
| `Copy.EnqueueAppends` | apps/copyfile.c:41-48 | enqueueing appends to the ring's contents |
| `Copy.DequeueTakes` | apps/copyfile.c:50-59 | dequeueing takes the oldest byte |
| `CopyRuns.ProducerKeeps` | apps/copyfile.c:121-150 | every step of the producer keeps the invariant of counters, ring and wire |
| `CopyRuns.ConsumerKeeps` | apps/copyfile.c:167-197 | so does every step of the consumer |
| `CopyRuns.CopiesFaithfully` | apps/copyfile.c:61-197 | in every interleaving the count is in 0..1024, the decoded bytes are a beginning of the source, all of it when done, and never are both threads blocked |
| `CopyRuns.SomeoneCanWork` | apps/copyfile.c:61-98 | until the consumer is done one thread can make a step that brings the copy closer to its end |
| `CopyRuns.StepWorks` | apps/copyfile.c:76-80 | every step is a turn of a wait loop, or its thread has finished, or it does so |
| `CopyObjects.ProtectedQueue.Enqueue` | apps/copyfile.c:41-48 | the object changes as Copy.Enqueued says |
| `CopyObjects.ProtectedQueue.Dequeue` | apps/copyfile.c:50-59 | the object changes as Copy.Dequeued says |
| `CopyObjects.CountingSemaphore.Down` | apps/copyfile.c:61-75 | counter, wait node and flag up to the wait loop |
| `CopyObjects.CountingSemaphore.Up` | apps/copyfile.c:84-98 | counter, wait node and flag |
| `CopyObjects.Stuff` | apps/copyfile.c:112-150 | the producer's loops over chunks of 127 send the wire |
| `CopyObjects.Unstuff` | apps/copyfile.c:163-203 | the consumer's loops, writing 33 at a time, give back the source |
| `CopyProgram.CopyFile.Perform` | apps/copyfile.c:41-197 | one critical section of either thread, on the queue and semaphore objects, is one step |
| `CopyProgram.CopyBySchedule` | apps/copyfile.c:210-238 | under any schedule the objects go through the states of the run, and what the file holds is a beginning of the source |

## Left out

- Machine.cpp: signals, processes, message queues, shared memory and context switching. Alarms and replies
  are events that come at any time; the disk image is an array of sectors.
- Dispatching is modelled as the change of the running thread. What the switch does to stacks and
  registers is not part of this model.
- Queues hold thread ids where the code holds pointers, and cached clusters, free segments and open files
  are values in lists where the code holds pointers to them. Aliasing between such records is not modelled;
  the code keeps one pointer to each.
- Stack memory: creating a thread always gets its stack, and deleting one always gives it back.
- The queue of threads that wait for memory (MemoryManager.cpp), with the standard descriptors that use it.
- KernelCalls.AcquireResume: the memory of a deleted mutex. The code goes on with its pointer to it; the
  model takes the call to fail.
- KernelCalls.VMThreadCreate: the status for null arguments and for a stack that cannot be allocated.
- KernelCalls.VMThreadDelete: the status for a stack that cannot be given back.
- KernelCalls.VMThreadTerminate: leaving the queue of threads that wait for memory.
- KernelCalls.FileHandler: the result that is stored in the thread for its file call to return.
- Ids and counters are unbounded, except where wrapping shows: the allocation size, the file pointer in a
  seek, and the four-byte size field.
- The mutex around file calls and the file requests that block inside them: a file call is one step.
- VMFileOpen's search of the directory, the 8.3 names, dates and times, open modes, directory enumeration,
  and the fields of a directory entry other than first cluster and size.
- FileEngine.FileSystem.CreateFile: the entry is given; finding a free one is not modelled.
- FatRuns.RunMirrors: one descriptor for each file, and writes that start inside the chain.
- FatDisk.ShutdownThenMount: 512-byte sectors, fewer than 128 of them in a cluster, and a root directory
  of whole sectors.
- FileEngine.FileSystem.FileRead: files with clusters past the end of the image, where the code reads on.
- FileEngine.FileSystem.FileWrite: writes to such files, writes for which the image has too few clusters,
  and writes that start behind the chain. FatRuns.WriteStaysIff and FatRuns.WriteStartsInTable say exactly
  which writes these are.
- FileCalls.Perform: the same calls, and creating a file with no cluster free on the image; exactly which
  ones is in FatRuns.CreateStaysIff.
- FatDisk.FilesSurviveRemount: what the code reads for clusters past the end of the image.
- A write that starts behind its chain reads and writes outside the table; the model does nothing there.
- MemoryPools.MemoryPool.DeallocateMemory: frees that read past the free list, and frees of an address that
  two allocated segments have; in a well-formed pool there are neither (PoolRuns.AnyFreeable). The search
  for the allocated segment goes on after its hit with the old length of the list, one slot past its end;
  the model stops at the hit.
- MemoryPools.PoolDeallocate: likewise.
- PathBuffers.PathIsOnMountCall: what the code does past the end of its buffer, when the text does not fit,
  and what it finds in a buffer to which nothing was written; exactly when is in
  RelativePaths.RelativeFitsIff and RelativePaths.NoRouteIff.
- Paths with empty components, and the path functions not named above.
- CopyObjects.Stuff: the semaphore calls around each byte; CopyProgram has them.
- CopyObjects.Unstuff: likewise.
- Copy: more than one waiter at a semaphore, the progress report of the main thread, and failing file
  calls; a source that cannot be opened behaves as an empty one.
