# A verified model of XLN's algorithms and protocols

XLN is a C++ application framework. This project models the parts of it whose correctness rests on an algorithm or a protocol, and
proves what they are for:

- the tracking allocator: a chained hash table of linked records beside a list of spare ones, with running and peak counters
  (`MemTrack`, `MemTrackAllocator`, and `MemHistory` for whole histories of calls);
- the glob matcher and the string splitter (`Glob`, `Split`);
- the task protocol: tasks posted to processors, handled, and returned to their creators for release, by double-buffered consumers, frame
  runners and pool workers (`TaskProtocol` for the steps, `TaskRuns` for whole runs, `Tasks` for the classes);
- the blocking queue, and the growing, shrinking and stopping of thread pools (`BlockingQueue`, `ThreadList`, `ThreadPool`);
- the service manager: dependency order, initialisation and teardown, and the lookup index over class hierarchies (`ServiceGraph`,
  `ServiceOps`, `ServiceOrder`, `ServiceIndex`, `ServiceTrace`, `ServiceMgr`, `ServiceTeardown`);
- the streaming Base64 encoder against RFC 4648 (`Base64`);
- message serialisation over a memory stream (`Streams`, `Messages`, `Framing`);
- download admission (`Downloads`), frame pacing (`FramePacing`) and relative paths (`RelativePath`).

`Machine`, `Sequences` and `Wrappers` hold integer widths and what several modules say about sequences and optional values.

What works step by step on its own objects is a class whose methods are proved against functions of the old state. What several threads do
is a relation of atomic steps: a move is enabled in a state or not, a run is any sequence of enabled moves, and the theorems are about every
run. Each critical section, queue operation and unguarded access of a flag is one such step. Handler bodies, callbacks, clocks, the wrapped
allocator, curl and the operating system are parameters or events.

`dafny verify dfyconfig.toml` checks the whole project.

## Model

| member | source | states |
|---|---|---|
| `MemTrack.GetHash` | XLN/Core/DebugHelper/Memory/MemTrackAllocator.cpp:145-149 | the hash of any address, also one whose top bit makes it negative as a signed number, is a bucket index below 4096 |
| `MemTrack.HashIsMiddleBits` | XLN/Core/DebugHelper/Memory/MemTrackAllocator.cpp:145-149 | it is bits 4 to 15 of the address, whatever the sign, so that successive 16-byte units fall into successive buckets |
| `MemTrack.AllocHashTable.Insert` | XLN/Core/DebugHelper/Memory/MemTrackAllocator.cpp:119-142 | a record goes in front of its bucket's chain; the table is otherwise as before, and of all back links only the one of the old head of that bucket is set |
| `MemTrack.AllocHashTable.Remove` | XLN/Core/DebugHelper/Memory/MemTrackAllocator.cpp:156-187 | finds the record of an address exactly if there is one and unlinks it, although the back link of a head that became head by removal is stale |
| `MemTrack.AddedValid` | XLN/Core/DebugHelper/Memory/MemTrackAllocator.cpp:133-142 | after an insertion the chains again hold exactly the tracked addresses, each once and in its own bucket, every record but a head links back to its predecessor |
| `MemTrack.DroppedValid` | XLN/Core/DebugHelper/Memory/MemTrackAllocator.cpp:162-186 | the same after a removal at the head or inside a chain |
| `MemTrack.AllocHashTable.VisitBucket` | XLN/Core/DebugHelper/Memory/MemTrackAllocator.cpp:199-206 | a walk down a bucket visits its chain in order and ends: chains have no cycle |
| `MemTrack.AllocHashTable.ForAllAllocInfo` | XLN/Core/DebugHelper/Memory/MemTrackAllocator.cpp:196-208 | visits the record of every live tracked address exactly once, and the callback finds there the file, function and line of the allocation and the size as far as 32 bits hold it |
| `MemTrackAllocator.TrackAllocator.GetNextFreeInfo` | XLN/Core/DebugHelper/Memory/MemTrackAllocator.cpp:77-86 | takes the first spare record, null exactly if there is none |
| `MemTrackAllocator.TrackAllocator.AddFreeInfo` | XLN/Core/DebugHelper/Memory/MemTrackAllocator.cpp:88-94 | puts a record in front of the spare ones; the free list stays a list without repetition |
| `MemTrackAllocator.TrackAllocator.Allocate` | XLN/Core/DebugHelper/Memory/MemTrackAllocator.cpp:24-55 | the new live set, counters and record counts are those of the history specification; table, spare list and the one record in use stay apart |
| `MemTrackAllocator.TrackAllocator.AllocateUntracked` | XLN/Core/DebugHelper/Memory/MemTrackAllocator.cpp:57-60 | passes the wrapped allocator's answer on and changes nothing |
| `MemTrackAllocator.TrackAllocator.DeAllocate` | XLN/Core/DebugHelper/Memory/MemTrackAllocator.cpp:61-75 | the same for freeing, tracked or not, null or not; the record becomes spare |
| `MemTrackAllocator.Lifetime` | XLN/Core/DebugHelper/Memory/MemTrackAllocator.cpp:24-208 | any sequence of calls made on a new allocator leaves it with a valid table and spare list and in the state of the history specification, and the visit at the end lists exactly the blocks tracked and not freed since, each once and with the place and size of its allocation |
| `MemHistory.LiveIsAllocatedNotFreed` | XLN/Core/DebugHelper/Memory/MemTrackAllocator.cpp:24-75 | after any history an address is live exactly if some allocation of it was tracked (there was a block, and memory for a record or an earlier moment with more live blocks) and not followed by a release, and its block is the one of that allocation |
| `MemHistory.TrackedExactly` | XLN/Core/DebugHelper/Memory/MemTrackAllocator.cpp:24-55 | an allocation is live afterwards if and only if the wrapped allocator gave a block and either memory for a record could be had or more blocks were live at some earlier moment than now, so that a record is to spare |
| `MemHistory.Conservation` | XLN/Core/DebugHelper/Memory/MemTrackAllocator.cpp:28-53 | after any history the count is the number of live tracked blocks, the size is their total up to what the 32-bit record field lost, and the records ever made are the live ones plus the spare ones and as many as the peak count |
| `MemHistory.SizeCounterExact` | XLN/Core/DebugHelper/Memory/MemTrackAllocator.cpp:42-46 | the size counter is the total of live sizes if and only if that loss is a multiple of 2^64 |
| `MemHistory.DriftIsZero` | XLN/Core/DebugHelper/Memory/MemTrackAllocator.cpp:42-69 | the loss is nought exactly as long as no tracked block of 2^31 bytes or more has been freed |
| `MemHistory.SizeCounterExactWhile` | XLN/Core/DebugHelper/Memory/MemTrackAllocator.cpp:42-69 | so, while the loss is below 2^64, the size counter is the total of live sizes if and only if no such block has been freed |
| `MemHistory.SmallBlocksDoNotDrift` | XLN/Core/DebugHelper/Memory/MemTrackAllocator.cpp:42-69 | nothing is lost while every block is below 2^31 bytes |
| `MemHistory.SmallSizeExact` | XLN/Core/DebugHelper/Memory/MemTrackAllocator.cpp:42-69 | the size counter then equals the total of the live sizes |
| `MemHistory.LargeBlockDrifts` | XLN/Core/DebugHelper/Memory/MemTrackAllocator.cpp:42-69 | one block of 2^31 bytes, allocated and freed, leaves the size counter at 2^32 with nothing live |
| `MemHistory.PeakSizeIsSampledMaximum` | XLN/Core/DebugHelper/Memory/MemTrackAllocator.cpp:46-49 | the peak size is the greatest value of the size counter over all moments at which it is sampled |
| `MemHistory.PeakSizeIsMaximum` | XLN/Core/DebugHelper/Memory/MemTrackAllocator.cpp:46-49 | while blocks are below 2^31 bytes it is the greatest total of live sizes over the whole history |
| `MemHistory.PeakCountIsMaximum` | XLN/Core/DebugHelper/Memory/MemTrackAllocator.cpp:46-49 | the peak count is the greatest number of live tracked blocks over the whole history |
| `Glob.Match` | XLN/Core/Utility/StringTool.cpp:196-271 | the pointer code terminates on all inputs, recursion for `*` included, and answers whether the code semantics accepts the C strings, folded to lower case unless case counts |
| `Glob.FoldedMeans` | XLN/Core/Utility/StringTool.cpp:200-207 | two texts fold to the same one if and only if they differ at most in the case of letters, and nothing is folded where case counts |
| `Glob.PiecesMean` | XLN/Core/Utility/StringTool.cpp:209-270 | `*` accepts everything, `?` any one character, a plain or quoted character itself alone |
| `Glob.ClassesMean` | XLN/Core/Utility/StringTool.cpp:231-258 | a class accepts exactly the characters it lists, a range those between its ends in either order |
| `Glob.OddPieces` | XLN/Core/Utility/StringTool.cpp:231-265 | a trailing backslash and an empty class accept nothing, and a class that breaks off in a range its first character alone |
| `Glob.MatchAnywhere` | XLN/Core/Utility/StringTool.cpp:219-229 | the retry loop of `*` answers whether some suffix matches |
| `Glob.MatchClass` | XLN/Core/Utility/StringTool.cpp:231-258 | the class loop finds a hit exactly where one is, and leaves the pattern where the code goes on |
| `Glob.HitIffAccepted` | XLN/Core/Utility/StringTool.cpp:234-247 | a class hits a character exactly if one of its ranges, in either direction, holds it; unterminated classes included |
| `Glob.ClassResidual` | XLN/Core/Utility/StringTool.cpp:248-256 | the code goes on after a class's own closing bracket for every character exactly if no `]` ends a range in it, but for one at the very end |
| `Glob.MatchesIsLanguage` | XLN/Core/Utility/StringTool.cpp:209-270 | on patterns without such a range end the code accepts exactly the strings in the language of the pattern's tokens |
| `Glob.NotShorter` | XLN/Core/Utility/StringTool.cpp:209-270 | however early the code takes classes to be closed, on patterns with steady classes it accepts no string shorter than the number of tokens other than `*` |
| `Glob.Difference` | XLN/Core/Utility/StringTool.cpp:209-270 | for every pattern, `*` included, in which a `]` ends a range, whose tokens accept something and whose classes are steady, a string on which code and language differ: a shortest one of the language, or one that an unclosed class before stars lets the code accept |
| `Glob.ExactlyOnPlain` | XLN/Core/Utility/StringTool.cpp:209-270 | on patterns, `*` and unclosed classes included, whose tokens accept something and whose closed classes are steady (one in which a `]` ends a range holds no `[` or does not end in `-`), code and language agree on all strings if and only if no `]` ends a range |
| `Glob.AgreesOnNothing` | XLN/Core/Utility/StringTool.cpp:231-258 | why tokens must accept something: `[][a-]]` is not plain, yet code and language agree on all strings |
| `Glob.AgreesThoughUnsteady` | XLN/Core/Utility/StringTool.cpp:209-270 | why classes must be steady: all tokens of `[a-]*[-!-]*[b]` accept something and a `]` ends a range, yet code and language agree on all strings |
| `Glob.BracketAsRangeEnd` | XLN/Core/Utility/StringTool.cpp:248-256 | a pattern with such a range end for which it does not |
| `Glob.LanguageOfConcat` | XLN/Core/Utility/StringTool.cpp:219-229 | the language of a concatenation of tokens is the concatenation of the languages |
| `Glob.TokensOfConcat` | XLN/Core/Utility/StringTool.cpp:211-270 | a pattern that ends on a token boundary followed by another has the tokens of both |
| `Glob.MatchesConcat` | XLN/Core/Utility/StringTool.cpp:211-270 | it matches exactly the strings that split into a match of the one and a match of the other |
| `Glob.EscapedMatchesItself` | XLN/Core/Utility/StringTool.cpp:260-265 | the backslash-escaped form of a NUL-free string matches that string and nothing else |
| `Split.Split` | XLN/Core/Utility/StringTool.cpp:36-58 | gives the text of exactly the maximal delimiter-free runs in order, the first `maxSplits` of them unless that is 0 or 2^32 - 1, where the count wraps |
| `Split.SpansAreMaximalRuns` | XLN/Core/Utility/StringTool.cpp:40-55 | from any place between runs, the runs found are exactly the maximal delimiter-free ones that begin there or later, in order |
| `Split.SplitGivesMaximalRuns` | XLN/Core/Utility/StringTool.cpp:36-78 | over the whole string: exactly the maximal delimiter-free runs in ascending order, and a limit below 2^32 - 1 that many of the first ones, or all |
| `Tasks.TaskObject.constructor` | XLN/Core/Foundation/Task/Task.cpp:9-15 | a task records the processor of the thread that made it |
| `Tasks.TaskObject.Reset` | XLN/Core/Foundation/Task/Task.cpp:36-53 | forgets handler, function, action and creator |
| `Tasks.TaskObject.SetPosion` | XLN/Core/Foundation/Task/Task.cpp:76-79 | marks a task as one that stops a worker |
| `Tasks.PushedKeeps` | XLN/Core/Foundation/Task/TaskQueue.cpp:14-17 | a pushed task takes its place by address |
| `Tasks.TaskQueue.Enqueue` | XLN/Core/Foundation/Task/TaskQueue.cpp:14-17 | adds the task to the contents and nothing else |
| `Tasks.TaskQueue.Dequeue` | XLN/Core/Foundation/Task/TaskQueue.cpp:19-28 | takes a task with the greatest address, exactly that one, and null exactly from an empty queue |
| `Tasks.TaskConsumer.PostTask` | XLN/Core/Foundation/Task/TaskConsumer.cpp:151-162 | is the posting step of the protocol: the incoming buffer grows by the task and the flag is raised |
| `Tasks.TaskConsumer.ReloadWorkQueue` | XLN/Core/Foundation/Task/TaskConsumer.cpp:138-149 | exchanges the buffers unless nothing is incoming |
| `Tasks.TaskConsumer.Wake` | XLN/Core/Foundation/Task/TaskConsumer.cpp:47-55 | is the reloading step: the exchange, and the flag lowered |
| `Tasks.TaskConsumer.SetFinished` | XLN/Core/Foundation/Task/TaskConsumer.cpp:126-136 | raises both flags and touches no buffer |
| `Tasks.TaskConsumer.RunTask` | XLN/Core/Foundation/Task/TaskConsumer.cpp:62-109 | deals with a dequeued task as the protocol's processing step says: its function run, or else its handler called; state; release or return to the creator |
| `Tasks.TaskConsumer.ClearTasks` | XLN/Core/Foundation/Task/TaskConsumer.cpp:177-192 | releases every task of both buffers, each as often as it is queued, those of the working buffer first, and leaves both empty |
| `Tasks.FrameRunner.PostTask` | XLN/Core/Foundation/Task/FrameRunner.cpp:90-93 | appends to the queue |
| `Tasks.FrameRunner.RunTask` | XLN/Core/Foundation/Task/FrameRunner.cpp:34-78 | the processing step of a frame runner, which ignores functions and calls `OnFinish` itself for its own tasks |
| `Tasks.FrameRunner.DoRun` | XLN/Core/Foundation/Task/FrameRunner.cpp:26-87 | one frame deals with every waiting task once, in the order of posting, and with those posted meanwhile, until none waits |
| `Tasks.FrameIsFirstInFirstOut` | XLN/Core/Foundation/Task/FrameRunner.cpp:26-37 | the tasks of one frame are those waiting and then those posted, in that order, up to the first moment at which all there is has been dealt with |
| `Tasks.RunPoolTask` | XLN/Core/Foundation/Task/MPMCTaskRunner.cpp:34-89 | the processing step of a pool worker, with the callback for actual tasks; on a task made to stop it the worker quits and leaves the task unreleased |
| `TaskProtocol.BothSetSkipsHandler` | XLN/Core/Foundation/Task/TaskConsumer.cpp:82-103 | a task with a function and a handler, away from its creator, has only the function run; its handler is told of the end though never called |
| `TaskProtocol.TakeKeeps` | XLN/Core/Foundation/Task/TaskConsumer.cpp:62-63 | dequeuing keeps the whole invariant: places, histories, buffers, batches |
| `TaskProtocol.ProcessKeeps` | XLN/Core/Foundation/Task/TaskConsumer.cpp:65-104 | so does releasing a task or bouncing it back to its creator's queue |
| `TaskProtocol.ReloadKeeps` | XLN/Core/Foundation/Task/TaskConsumer.cpp:47-55 | so does the exchange of the buffers |
| `TaskProtocol.ClearKeeps` | XLN/Core/Foundation/Task/TaskConsumer.cpp:177-192 | so does each release while clearing |
| `TaskProtocol.NextKeeps` | XLN/Core/Foundation/Task/TaskConsumer.cpp:40-192 | every step of every thread keeps it |
| `TaskRuns.Ownership` | XLN/Core/Foundation/Task/TaskConsumer.cpp:57-111 | in every interleaving of posters, consumers, frame runners and pool workers each unreleased task is in exactly one queue or hand, once, and a released one nowhere; until it is dealt with it is in the queue it was posted to or with a runner of that queue, and only such a runner deals with it; dealt with away from its creator it is released by a runner of its creator and nobody else; its function is run or its handler called, at most one of them and at most once; released at most once, dequeued at most twice; `OnFinish` at most once, on the creator's processor, after the task was dealt with, and after its handler was called if and only if the task has no function or was posted to a frame runner |
| `TaskRuns.NoPostIsLost` | XLN/Core/Foundation/Task/TaskConsumer.cpp:47-55 | a consumer whose flag is down has nothing incoming; at every exchange the working buffer is empty and no task is in hands, and all that was incoming is what it works on next |
| `TaskRuns.BatchAfterBatch` | XLN/Core/Foundation/Task/TaskConsumer.cpp:57-111 | while a task of one batch is queued for work or in hands no task of an earlier batch is queued |
| `TaskRuns.ClearingStep` | XLN/Core/Foundation/Task/TaskConsumer.cpp:177-192 | no step of any thread takes a task from a consumer that clears its queues, but the consumer itself, which releases it |
| `TaskRuns.ClearReleasesAll` | XLN/Core/Foundation/Task/TaskConsumer.cpp:42-117 | whatever is queued once a consumer has left its loops is released exactly once by the time it has stopped |
| `TaskRuns.ClearingEnds` | XLN/Core/Foundation/Task/TaskConsumer.cpp:177-192 | and with no new posts it does stop, in boundedly many steps, so that all of it is released |
| `TaskRuns.ComesToRest` | XLN/Core/Foundation/Task/TaskConsumer.cpp:42-192 | with no new posts no run of the runners, finishing and clearing included, is longer than a bound computed from where it begins |
| `TaskRuns.FinishedConsumersStop` | XLN/Core/Foundation/Task/TaskConsumer.cpp:42-192 | and where they come to rest exactly the consumers told to finish have stopped, and only what went back to one of them after it had stopped is unreleased |
| `TaskRuns.RestMeansDrained` | XLN/Core/Foundation/Task/TaskConsumer.cpp:57-111 | where no runner can go on, and none was told to finish, every task has been released |
| `TaskRuns.EverythingDrains` | XLN/Core/Foundation/Task/FrameRunner.cpp:29-83 | with nothing told to finish every way of running on releases every task, each dealt with by one runner of the queue it was posted to, as runners of that queue do, and told of its end, dequeued and released as `ServedMeans` says |
| `TaskRuns.ServedMeans` | XLN/Core/Foundation/Task/MPMCTaskRunner.cpp:54-74 | that is, settled by the task and the queue it is posted to alone, with or without a handler: its function has run exactly once unless that queue is a frame runner's, its handler was called exactly once if there is no function or that queue is a frame runner's, and otherwise never; it was sent back and dequeued a second time and released by a runner of its creator if and only if it has a creator other than that queue, and else released by the runner that dealt with it; its handler was told of the end exactly once in the first case and by a frame runner at home |
| `BlockingQueue.NextKeeps` | XLN/Core/Foundation/Task/TaskBarrierBlockingQueue.h:15-41 | each push, post, look and wake-up keeps: queue size at most permits plus pending posts plus woken takers, and these at most the items ever added; what came out followed by what is queued is what went in |
| `BlockingQueue.NoLostWakeUp` | XLN/Core/Foundation/Task/TaskBarrierBlockingQueue.h:15-41 | in every interleaving both hold, and a non-empty queue with every taker asleep and no pending post has a permit with which any of them can go on |
| `BlockingQueue.TakersAreServed` | XLN/Core/Foundation/Task/TaskBarrierBlockingQueue.h:24-41 | with no new calls the ones begun come to rest in boundedly many steps, and then a call to Take is pending only while the queue is empty |
| `ThreadList.ThreadList.Add` | XLN/Core/Foundation/ThreadPool.h:81-92 | keeps the list sorted by number and adds exactly the thread |
| `ThreadList.ThreadList.LowerBound` | XLN/Core/Foundation/ThreadPool.h:82-90 | the binary search finds the first thread whose number is not less |
| `ThreadList.ThreadList.UpperBound` | XLN/Core/Foundation/ThreadPool.h:95-99 | and the first whose number is greater |
| `ThreadList.ThreadList.Remove` | XLN/Core/Foundation/ThreadPool.h:94-103 | the two checks pass exactly if the thread is in the list, and then exactly it is removed |
| `ThreadPool.NextKeeps` | XLN/Core/Foundation/ThreadPool.cpp:31-131 | every step of workers, posters and the thread that changes the pool keeps: each poison taken has stopped one worker, each task taken has run or is being run once, each stopped thread is joined, awaited or announced once, poison and joins balance |
| `ThreadPool.CallMeetsGoal` | XLN/Core/Foundation/Executor/ThreadPoolExecutor.cpp:35-56 | whatever is posted meanwhile, SetMaxThread(n) leaves n threads and StopAllThread none |
| `ThreadPool.OutsideIsClean` | XLN/Core/Foundation/ThreadPool.cpp:78-87 | between calls no poison is left, the threads of the list are all alive and the others have all ended |
| `ThreadPool.PostedBeforePoisonHasRun` | XLN/Core/Foundation/Task/MPMCTaskRunner.cpp:29-39 | once no poison is queued and no worker runs, every task posted before some poison has run exactly once |
| `ThreadPool.StopAllThreadStops` | XLN/Core/Foundation/Executor/ThreadPoolExecutor.cpp:27-33 | after StopAllThread every worker has ended and was joined exactly once, list and queue of stopped threads are empty, and every task posted before some poison has run exactly once |
| `ThreadPool.NeverStuck` | XLN/Core/Foundation/ThreadPool.cpp:120-131 | until the call returns some step can always be made, if tasks return: joining never waits in vain |
| `ThreadPool.CallsReturn` | XLN/Core/Foundation/ThreadPool.cpp:120-131 | with no new posts the call returns after boundedly many steps |
| `ThreadPool.AdvanceMeasure` | XLN/Core/Foundation/Executor/CPUThreadPoolExecutor.cpp:25-31 | each step of a worker or of the joining thread uses up part of that bound |
| `ServiceGraph.DepthIsLongest` | XLN/Core/Foundation/ServiceMgr.cpp:263-276 | the depth that the recursion computes is the number of edges of a longest dependency chain |
| `ServiceGraph.LongestChainUnique` | XLN/Core/Foundation/ServiceMgr.cpp:263-276 | and there is only one such number |
| `ServiceGraph.DependentIsDeeper` | XLN/Core/Foundation/ServiceMgr.cpp:263-276 | a service has a longer chain than any service it depends on |
| `ServiceGraph.DerivesByBases` | XLN/Core/Foundation/ServiceMgr.cpp:245-256 | a class derives from exactly those that a chain of bases leads to |
| `ServiceMgr.Manager.IsKindOf` | XLN/Core/Foundation/ServiceMgr.cpp:245-256 | the walk up a base chain answers whether the class is in it |
| `ServiceMgr.Manager.FindImplementer` | XLN/Core/Foundation/ServiceMgr.cpp:243-257 | finds a registered service that is or derives from the class, if there is one |
| `ServiceMgr.Manager.RecurrsiveBuildDep` | XLN/Core/Foundation/ServiceMgr.cpp:213-278 | terminates on every graph, cyclic or incomplete; changes only orders; answers the order it has memoised, 0 for a service without dependencies, or -1; in a graph where every dependency has one implementer and none is cyclic it returns the depth and memoises nothing but depths |
| `ServiceOrder.PathShrinksRest` | XLN/Core/Foundation/ServiceMgr.cpp:228-264 | each recursive call has strictly fewer depended-upon classes left that are not on the path |
| `ServiceOrder.NoCycleOnPath` | XLN/Core/Foundation/ServiceMgr.cpp:231-239 | in an acyclic graph the cycle test never strikes |
| `ServiceOps.SortedSorts` | XLN/Core/Foundation/ServiceMgr.cpp:302 | sorting the list orders it and keeps the elements of each order and their sequence |
| `ServiceOps.SortedKeepsIds` | XLN/Core/Foundation/ServiceMgr.cpp:302 | and keeps exactly the same entries, without repetition |
| `ServiceOrder.OrderedIsDependenciesFirst` | XLN/Core/Foundation/ServiceMgr.h:47-50 | a list sorted by longest chains has every service after all it depends on |
| `ServiceMgr.Manager.BuildDep` | XLN/Core/Foundation/ServiceMgr.cpp:280-313 | from a well-formed graph every service with dependencies gets the length of its longest chain, the others keep -1, and the list has dependencies first |
| `ServiceOps.SortedByAddress` | XLN/Core/Foundation/ServiceMgr.cpp:288-302 | services of one order keep the order of the registry, which is that of class addresses |
| `ServiceMgr.Manager.RegisterService` | XLN/Core/Foundation/ServiceMgr.cpp:67-108 | a second service of a class changes nothing; a first one enters registry and index, gets OnPreInit, and after Init also OnInit and a place at the end of the list; the OnPreInit callbacks stay those of the registrations that took effect |
| `ServiceTrace.RegistrationAnnounced` | XLN/Core/Foundation/ServiceMgr.cpp:78-82 | the sequence of OnPreInit callbacks grows by exactly the service whose registration takes effect, before and after Init, and OnInit comes after OnPreInit |
| `ServiceMgr.Manager.UnRegisterService` | XLN/Core/Foundation/ServiceMgr.cpp:335-346 | registry and index forget the class, the index also all its base classes, and the index still answers what the history says |
| `ServiceMgr.Manager.GetService` | XLN/Core/Foundation/ServiceMgr.h:82-94 | answers what the history of calls says, and never a service that is not registered or not of the class |
| `ServiceMgr.Manager.Init` | XLN/Core/Foundation/ServiceMgr.cpp:128-141 | calls OnInit along the sorted list; the list then has each registered service once, by order and then by address, and each got OnPreInit before |
| `ServiceMgr.Manager.ShutDown` | XLN/Core/Foundation/ServiceMgr.cpp:168-186 | calls OnDestroy along the list from its end, on services that got OnInit before, and forgets everything |
| `ServiceIndex.LatestIsRegistered` | XLN/Core/Foundation/ServiceMgr.cpp:335-346 | after any mix of registrations and unregistrations a lookup finds only a registered service that derives from the class |
| `ServiceIndex.LookupFindsMostRecent` | XLN/Core/Foundation/ServiceMgr.cpp:102-107 | under registrations alone a lookup finds the most recent first-of-its-class service with the class in its base chain, and nothing exactly if there never was one |
| `ServiceIndex.LookupExactly` | XLN/Core/Foundation/ServiceMgr.cpp:67-108 | after any mix of calls a lookup finds a service if and only if the last call that concerns the class, an effective registration or an unregistration of a class derived from it, is the registration of that service |
| `ServiceIndex.RegisteredExactly` | XLN/Core/Foundation/ServiceMgr.cpp:335-346 | a service is registered if and only if some registration of it took effect and no unregistration of its class came later |
| `ServiceOps.ReversedDependentsFirst` | XLN/Core/Foundation/ServiceMgr.cpp:170-180 | teardown in reverse of a dependencies-first list destroys every service before those it depends on |
| `ServiceMgr.Lifetime` | XLN/Core/Foundation/ServiceMgr.cpp:188-196 | for any registrations, Init, more registrations, and ShutDown: each registered service gets OnPreInit once, in the order of registration, is initialised once after that, the destroy sequence is exactly the reverse, and dependencies present at Init are respected both ways |
| `ServiceTeardown.Teardown` | XLN/Core/Foundation/ServiceMgr.cpp:67-186 | for any registrations and unregistrations, Init, any more of them, and ShutDown: the destroy sequence is the exact reverse of the init sequence, which is what was registered at Init, each once, and then what later registrations added; every service registered at the end is destroyed exactly once if and only if none of them was registered again after it had been initialised; the OnPreInit callbacks are exactly the registrations that took effect, in order, and no service is initialised before its OnPreInit or destroyed before its OnInit |
| `ServiceTeardown.RegisteredAgainTwice` | XLN/Core/Foundation/ServiceMgr.cpp:67-186 | a service registered, unregistered after `Init` and registered again is one that is initialised, and so destroyed, twice |
| `ServiceTeardown.DestroyedOnce` | XLN/Core/Foundation/ServiceMgr.cpp:168-186 | any service is destroyed exactly as often as it was initialised |
| `Base64.TableIsStandard` | XLN/Core/Utility/Base64.h:51-59 | the character table is the one of section 4 of RFC 4648 |
| `Base64.RoundTrip` | XLN/Core/Utility/Base64.h:129-246 | the decoder specified from section 4 of RFC 4648 recovers every byte sequence from its encoding |
| `Base64.StandardVectors` | XLN/Core/Utility/Base64.h:261-267 | the encoding of the test vectors of RFC 4648 |
| `Base64.EncodingLength` | XLN/Core/Utility/Base64.h:129-246 | the encoding of n bytes has length 4 times n / 3 rounded up |
| `Base64.EncodingSplits` | XLN/Core/Utility/Base64.h:224-246 | the text written for full groups and part of the last, followed by what closes it, is the encoding |
| `Base64.SettledStep` | XLN/Core/Utility/Base64.h:146-201 | one more byte adds exactly the characters the state machine writes for it |
| `Base64.Encode` | XLN/Core/Utility/Base64.h:129-204 | entered at any place of a group, the loop writes exactly what the bytes of the chunk settle, and leaves the state for all bytes so far |
| `Base64.EncodeRest` | XLN/Core/Utility/Base64.h:224-246 | closes the text with the last character and its padding, and clears the state |
| `Base64.EncodeAll` | XLN/Core/Utility/Base64.h:261-267 | one-shot encoding gives the standard's encoding |
| `Base64.EncodeChunks` | XLN/Core/Utility/Base64.h:114-246 | so does chunked encoding, for every way of cutting the input, empty chunks included |
| `Streams.MemoryDataStream.Read` | XLN/Core/Foundation/DataStream.cpp:142-155 | copies as many bytes as are left, leaves the rest of the buffer, and moves on by their number |
| `Streams.MemoryDataStream.Write` | XLN/Core/Foundation/DataStream.cpp:269-282 | overwrites from the position as far as the stream reaches, nothing else, and moves on |
| `Streams.WrittenMeans` | XLN/Core/Foundation/DataStream.cpp:269-282 | what is written stands at the position as far as there is room, and all else is as it was |
| `Streams.WrittenTwice` | XLN/Core/Foundation/DataStream.cpp:269-282 | two writes in a row are one write of both, also where the end cuts them short |
| `Streams.MemoryDataStream.ByteOrderWrite` | XLN/Core/Foundation/DataStream.cpp:50-67 | writes the bytes in order, or reversed if the stream's order is not the host's |
| `Streams.MemoryDataStream.ByteOrderRead` | XLN/Core/Foundation/DataStream.cpp:30-48 | reads them in the same way; bytes that the stream lacks stay as they are |
| `Streams.ReversedTwice` | XLN/Core/Foundation/DataStream.cpp:30-67 | so that what one order writes the same order reads back |
| `Messages.KeyValuePairMessage.InsertValue` | XLN/Core/Foundation/Message/BaseMessage.cpp:26-29 | the map gets the value for the key and stays sorted |
| `Messages.KeyValuePairMessage.GetValue` | XLN/Core/Foundation/Message/BaseMessage.cpp:31-38 | the value for the key, none exactly if the key is missing |
| `Messages.LessMeans` | XLN/Core/Foundation/Message/BaseMessage.cpp:71-91 | the key order is that of a dictionary |
| `Messages.KeyValuePairMessage.ToStream` | XLN/Core/Foundation/Message/BaseMessage.cpp:71-91 | writes the count and every length-prefixed key and value, in key order |
| `Messages.EntryOnWire` | XLN/Core/Foundation/Message/BaseMessage.cpp:71-91 | on the wire each entry follows those before it, as key length, key, value length, value |
| `Messages.OneEntryOnWire` | XLN/Core/Foundation/Message/BaseMessage.cpp:71-91 | the bytes of one short message |
| `Messages.NumberOfU32` | XLN/Core/Foundation/Message/BaseMessage.cpp:71-91 | a number travels as the four bytes of its low 32 bits, lowest first |
| `Messages.KeyValuePairMessage.FromStream` | XLN/Core/Foundation/Message/BaseMessage.cpp:45-69 | if the stream holds a whole message exactly its bytes are used up and its entries merged in; whatever it holds, the entries already there keep their values |
| `Messages.MergedContents` | XLN/Core/Foundation/Message/BaseMessage.cpp:65 | keys already there keep their values, new keys get the first value read |
| `Messages.TextRoundTripExactly` | XLN/Core/Foundation/Message/BaseMessage.cpp:52-57 | a text is read back as written if and only if it holds no NUL and its length plus one is below 2^32 |
| `Messages.PrintedRoundTrip` | XLN/Core/Foundation/Message/BaseMessage.cpp:45-91 | whatever follows, reading what was written gives the entries back and uses up exactly those bytes |
| `Messages.PrintedRoundTripExactly` | XLN/Core/Foundation/Message/BaseMessage.cpp:45-91 | it does so if and only if every text can be read back and there are fewer than 2^32 entries |
| `Framing.MsgToStream` | XLN/Core/Foundation/Message/IMessage.cpp:40-44 | writes the class identifier and then the message |
| `Framing.StreamToMsg` | XLN/Core/Foundation/Message/IMessage.cpp:22-38 | makes a message exactly if the identifier is registered, and reads it |
| `Framing.FrameRoundTrip` | XLN/Core/Foundation/Message/IMessage.cpp:22-44 | a framed message comes back equal and its reader stops where its writer did |
| `Framing.FramesRoundTrip` | XLN/Core/Foundation/Message/IMessage.cpp:22-44 | any sequence of messages comes back equal and in order |
| `Framing.Transfer` | XLN/Core/Foundation/Message/IMessage.cpp:22-44 | the same for the classes: messages written one by one to a large enough stream and read from its start come back equal and in order |
| `Downloads.NextKeeps` | XLN/Client/DownloaderEventCurl.cpp:34-56 | each step of the event thread and of any sender keeps: handles apart, tasks once, never more handles than the cap, and a reason to look whenever something waits beside room |
| `Downloads.Admission` | XLN/Client/DownloaderEventCurl.cpp:234-365 | in every run there are never more handles than a positive cap, each of them running or pooled, tasks are admitted in the order sent and fulfilled once; with no interrupt pending, no sender between push and activation and the event thread idle, nothing waits or as many run as the cap says, where a negative one stands for a huge number |
| `Downloads.WaitsOnlyForRoom` | XLN/Client/DownloaderEventCurl.cpp:493-497 | left alone the event thread comes to rest in boundedly many steps and then what waits waits for room |
| `Downloads.AdmitsWhatFits` | XLN/Client/DownloaderEventCurl.cpp:34-56 | a run of OnInterrupt admits as many tasks as there is room for, in order, each once and on a handle of its own |
| `Downloads.Downloader.OnInterrupt` | XLN/Client/DownloaderEventCurl.cpp:34-56 | the loop does what that specification says |
| `Downloads.Downloader.CheckSocket` | XLN/Client/DownloaderEventCurl.cpp:225-366 | fulfils and removes each finished task, pools its handle again, also one it does not know, and asks for another look if it read any message |
| `Downloads.FulfilsWhatIsDone` | XLN/Client/DownloaderEventCurl.cpp:225-366 | for any messages CheckSocket takes exactly the reported handles from the running ones, pools each reported one, fulfils each task as often as reported handles ran it, and changes nothing else |
| `Downloads.FulfilledOnce` | XLN/Client/DownloaderEventCurl.cpp:225-366 | so each task whose handle is reported has been fulfilled exactly once, and no other task's count changes |
| `Downloads.HandlesStayApart` | XLN/Client/DownloaderEventCurl.cpp:225-366 | handles stay apart, and as many, when curl reports only what runs |
| `Downloads.CurlPool.Obtain` | XLN/Client/CurlPool.cpp:26-40 | the first pooled handle, or else a new one |
| `Downloads.CurlPool.Return` | XLN/Client/CurlPool.cpp:42-46 | pools a handle again |
| `FramePacing.FrameExecutor.OnThreadRun` | XLN/Core/Foundation/FrameExecutor.cpp:45-69 | one poll changes tick, residue and frames as the specification says, all in 32 bits |
| `FramePacing.FrameExecutor.SetMaxFPS` | XLN/Core/Foundation/FrameExecutor.cpp:25-29 | sets the frame length to the greatest number of milliseconds of which as many as the rate fit a second, after the cast that makes a negative rate huge; for 0, to whatever the cast of infinity gives |
| `FramePacing.Session` | XLN/Core/Foundation/FrameExecutor.cpp:25-69 | an executor given any rate but 0, started and polled at any ascending times gives at most rate times elapsed milliseconds / 1000 frames, and loses no time if and only if every poll fits the tick |
| `FramePacing.PollAccounts` | XLN/Core/Foundation/FrameExecutor.cpp:48-58 | one poll adds the time passed, exactly if residue plus gap fit 32 bits, and never more |
| `FramePacing.PollFrames` | XLN/Core/Foundation/FrameExecutor.cpp:48-63 | one poll gives at most one frame: one with all the time since the last if that exceeds the frame length, else none |
| `FramePacing.TimeIsConserved` | XLN/Core/Foundation/FrameExecutor.cpp:38-69 | over any run the deltas given to OnFrame plus the residue equal the time elapsed if and only if at every poll the residue and the gap fit 32 bits; they never exceed it |
| `FramePacing.ShortGapsFit` | XLN/Core/Foundation/FrameExecutor.cpp:38-69 | they fit if every gap plus the frame length is below 2^32 |
| `FramePacing.FpsIsNeverExceeded` | XLN/Core/Foundation/FrameExecutor.cpp:52-59 | in every run frames times (MillisPerFrame + 1) is at most the time elapsed, and the configured rate is never exceeded |
| `FramePacing.FpsIsNeverExceededWithin` | XLN/Core/Foundation/FrameExecutor.cpp:52-59 | the same over every window of polls, up to the residue where it begins; so between any two frames |
| `FramePacing.LongGapLosesTime` | XLN/Core/Foundation/FrameExecutor.cpp:48-51 | polled 50 days apart a pacer loses time |
| `RelativePath.RelativeTo` | XLN/Core/Platform/PlatformService.cpp:87-118 | the three loops give, past the longest common part, one `..` for each component of the rest of `from` up to its first `.`, and then the rest of `to` |
| `RelativePath.RelativeIsRight` | XLN/Core/Platform/PlatformService.cpp:87-118 | for absolute paths without `..` the result joined to `from` normalises to `to` if and only if no name follows a `.` in the part of `from` that differs |
| `RelativePath.TrailingDotIsLast` | XLN/Core/Platform/PlatformService.cpp:87-118 | in particular whenever `.` is at most the last component |
| `RelativePath.DotInTheMiddle` | XLN/Core/Platform/PlatformService.cpp:104-108 | a path with `.` in the middle for which it does not |

## Left out
- Tracking allocator: concurrent use (memory is freed before its record is removed), so calls are sequential and the wrapped allocator is assumed to return an address that no live tracked block has; it is a parameter.
- Tracking allocator: `ShutDown`, `Clear` and the destructor, after which table and counters no longer agree; fixed-size file and function name buffers; the dump callback.
- Glob.MatchesIsLanguage: does not cover patterns in which `]` ends a range, because there the code takes that bracket for the closing one; ClassResidual says for exactly which classes, ExactlyOnPlain on which patterns, BracketAsRangeEnd gives one.
- Glob.ExactlyOnPlain: does not say which of the patterns with a token that accepts nothing, or with a closed class in which `]` ends a range, that holds `[` and ends in `-`, agree; AgreesOnNothing and AgreesThoughUnsteady show that being plain does not decide it there. Characters are unbounded numbers, so some character is outside every class.
- Glob: `tolower` is the one of the default locale; a `char` is its number, whatever its sign.
- Split: the documentation promises to stop after `maxSplits` splits; the code does not for 2^32 - 1, where its count wraps, and the model follows the code.
- Task protocol: tasks that make a pool worker quit are part of ThreadPool and not of TaskProtocol; `m_DeleteCB` counts as the release it stands for; delayed posts behave as posts; each task object is given a new number when it is acquired.
- Task protocol: `OnFinish` is not called by TaskConsumer for a task whose creator is the consumer's own processor, though FrameRunner calls it; the model follows both.
- Task protocol: the runner of a processor that has ended is deleted in the code; a post to it is a post to a queue that nobody serves in the model.
- FrameRunner: its destructor, which does not end after a successful pop, and its bound of 2048 queued tasks.
- Task acquisition: `FreeList::Aquire` on an empty pool, which pushes the object it returns.
- LifoSemBlockingQueue: its throwing mode falls through and adds twice; the pool theorems are over a queue that adds each item once, as TaskBarrierBlockingQueue does.
- BlockingQueue: the order in which the semaphore lets takers through.
- ThreadPool: `PickThread`, the start and end barriers, and IOThreadPoolExecutor; starting a thread and adding it to the list are one step; only one thread changes the pool at a time.
- ThreadPool: tasks bounced back to a creator are the subject of TaskProtocol; here a task has run when its worker is back at the queue.
- Services: `UnRegisterService<T>`, which uses an iterator after erasing it; ticking; creators by name; several managers; registration from inside a callback.
- ServiceMgr.Manager.Init: a second call, which lists every service twice, keeps the registry and index but not what is said of the list.
- ServiceMgr.Lifetime: is for runs without unregistration; ServiceTeardown.Teardown covers the others. Unregistration does not take a service off the list of services to destroy, in the code as in the model.
- Services: `std::numeric_limits<Int32>::infinity()`, meant to put late services last in a sort, is 0; the list is not sorted again, so they are last all the same.
- Base64: iterators over types other than octets, and the overloads that only adapt argument types.
- Messages.KeyValuePairMessage.FromStream: the entries read from a stream that breaks off, which the code takes from memory that was never set.
- Messages.PrintedRoundTrip: texts with NUL or with a length of 2^32 - 1 or more, where the buffer length wraps; TextRoundTripExactly shows that a text comes back exactly otherwise.
- Streams: assertions are taken as compiled out; `ReadLine` and `SkipLine`, which may step past the end; `Skip` and the relative `Seek`; file streams.
- Streams: the bytes of a number are written as a little-endian host holds them.
- Framing: class identifiers are 16 bytes; creators of messages other than key-value ones.
- Downloads: curl, the event library and everything read from a finished transfer; one downloader on its handle pool; the cap is set before the first use, as nothing else initialises it; curl reports each running transfer done once.
- FramePacing: rounding in the floating-point division of `SetMaxFPS`; what the cast of infinity gives for a rate of 0 is a parameter; runs are for one rate.
- RelativePath: root names as on Windows, symbolic links and the file system.
- EventDispatcher, run-time class macros, unique identifiers, trimming, case conversion and file name helpers: they would only add easy members.
