# VX-LOG verification

A Dafny model of the core of VX-LOG, the log collector: its event engine, module lifecycle, record
routing, record codec and framing, line reader, expression language, strings, calendar arithmetic
and schedules, with proofs about all inputs, all runs or all reachable states.

`dafny verify dfyconfig.toml` checks the whole project.  One module per component:

| module | what it is |
|---|---|
| `DList` | the doubly linked lists, on heap nodes |
| `EventQueue` | job queues, deduplication of their tail, and what it keeps |
| `Lifecycle` | the module status handlers, the meaning of a queue, the language of callback traces |
| `Scheduler` | job groups and the choice of the next job |
| `Engine`, `EngineProofs`, `EngineProgress`, `EngineHistory` | workers, timer thread and producers as a step-by-step state machine; its invariant; progress and bounded waiting; where events come from and what becomes of them |
| `LinkedJobs`, `Timers` | the linked form of a job, and the event thread with its sleeping |
| `Routing`, `FlowControl` | handing records on along the routes, with drop and back pressure, and its release |
| `Handshake` | pausing and resuming as they interleave between a sender and its receiver |
| `Bytes`, `Codec`, `CodecBuffers`, `CodecLaws` | little-endian integers, the value and record format, its readers and writers on buffers, bytes cut short or from anywhere |
| `LogQueue`, `BinaryFraming` | queue files and the binary stream |
| `NxString`, `LineReader` | growable strings, escaping, lines put together from pieces |
| `Expr`, `ExprLaws` | type check and evaluation of expressions, and the laws of the operators |
| `Calendar`, `Schedule` | derived date fields, crontab fields, next runs |

Where the code does not do what its names, comments or callers suggest, the model follows the code:

- Unary minus returns its operand unchanged, and is announced as a boolean (`Expr.MinusNeverConforms`).
- A stepped crontab range `X-Y/Z` takes `X` and the multiples of `Z` below `Y`, not `Y` itself.
- Two START events for an uninitialized module do not act as one, and deduplication makes them one
  (`Lifecycle.DedupePreservesMeaning`).
- A CR is lost when the input is cut between the CRs of CR CR LF (`LineReader.CuttingIndependent`).
- The insert-after list macro leaves a wrong back link unless it inserts at the end (`DList.List.InsertAfter`).
- Binary values lose their content, regexps cannot be read back (`Codec.ValueRoundTrip`).
- A month read without a day is completed with the day of the year as its day (`Calendar.MonthAlone`,
  `Calendar.Tm.Complete`).
- The event thread sleeps for a duration computed from a clock read before it had the mutex, so it
  may wake late by the time that took (`Timers.NotOverslept`, `Timers.LagIsReached`).
- A sender pushes first and posts PAUSE to itself afterwards.  If the receiver empties the queue in
  between, the sender stays paused with nothing left that would resume it, except from an input to an
  output (`Handshake.StuckIff`, `Handshake.Stranded`).
- A malformed hexadecimal escape is left in the text but makes the length 3 too small, and an escape
  behind it is moved with that length (`NxString.Unescape`, `NxString.MoveIsRight`).
- Searching for a header behind bytes that belong to no frame, the binary reader drops a header cut
  within its first four bytes, and takes the length of one cut behind them from memory that has not
  been received (`BinaryFraming.CutBehindGarbage`).
- Seconds can be added in front of a time, and the type check refuses it (`ExprLaws.CheckIsExact`).
- A line over the string limit that arrives whole is refused again and again (`LineReader.OverlongLine`).
- `and` and `or` treat undefined operands differently, so De Morgan's law fails (`Expr.DeMorgan`).
- A record for an input without any destination is neither queued nor freed (`Routing.Router.AddInput`).

Clocks, sockets, local time, regular expression matching and the functions that modules register
are parameters, and every result holds for all of them.  Integers are unbounded except where a
machine width decides what happens: the codec, the frame length, the length of an unescaped string,
and integers and times in expressions, where C leaves an overflow undefined.

## Model

| member | source | states |
|---|---|---|
| `DList.List.InsertHead` | src/common/dlist.h:67-72 | on heap nodes with consistent first/last/next/prev links, the list stays consistent and the new node is the new head of the sequence |
| `DList.List.InsertTail` | src/common/dlist.h:74-79 | the same for the tail |
| `DList.List.InsertBefore` | src/common/dlist.h:54-59 | the new node comes directly in front of the given one, every other node keeps its place, links stay consistent |
| `DList.List.Remove` | src/common/dlist.h:81-87 | deletes one element of the sequence, keeps links consistent, and the removed node has no link left |
| `DList.List.InsertAfter` | src/common/dlist.h:61-65 | the list is still consistently linked if and only if the node was inserted at the end |
| `EventQueue.DedupeTail` | src/common/event.c:133-290 | the pass ends with a tail that matches no pattern, never empties a queue, and keeps the type of the last event |
| `EventQueue.AddedIsKept` | src/common/event.c:138-289 | a new event is kept if and only if the last one differs from it in type, data or priority and the last four types do not go round in one of the pairs; all types outside those pairs only depend on the first |
| `EventQueue.DroppedIsRepresented` | src/common/event.c:133-290 | whatever the pass drops, an event of the same type stays in the queue, with the same data and priority unless the type is PAUSE, RESUME, POLL or DATA_AVAILABLE |
| `EventQueue.AddKeepsNormalForm` | src/common/event.c:326-338 | adding to a queue in normal form gives a normal form, drops at most one round of events, and leaves the type just added at the tail |
| `EventQueue.NormalFormAlways` | src/common/event.c:303-338 | over every sequence of adds and head picks no queue ever holds two adjacent equal events or one of the seven X Y X Y patterns |
| `EventQueue.TogglesBounded` | src/common/event.c:138-289 | at most three pause/resume events of one module are ever consecutive |
| `EventQueue.PairsBounded` | src/common/event.c:138-289 | at most three events of two kinds whose types make a pair ever follow each other, at most four of DATA_AVAILABLE and RESUME |
| `EventQueue.JobQueue.Round` | src/common/event.c:138-289 | one round on the linked queue removes exactly the events the patterns say, with count and links kept |
| `EventQueue.JobQueue.DedupeTail` | src/common/event.c:133-290 | the loop on the linked list terminates and computes the specified pass |
| `EventQueue.JobQueue.ToJobQueue` | src/common/event.c:303-338 | the queue becomes the deduplicated queue with the event added, and a worker is signalled exactly when the new event is still there |
| `EventQueue.JobQueue.PickHead` | src/core/ctx.c:388-398 | takes the oldest event, unlinked, and counts it off |
| `EventQueue.JobQueue.RemoveEvent` | src/common/event.c:379-402 | removes one linked event from anywhere and counts it off |
| `Lifecycle.Module.StartSelf` | src/common/module.c:1074-1116 | status, callbacks and posted events of START in every status |
| `Lifecycle.Module.StopSelf` | src/common/module.c:1137-1168 | the same for STOP |
| `Lifecycle.Module.PauseSelf` | src/common/module.c:1189-1221 | the same for PAUSE |
| `Lifecycle.Module.ResumeSelf` | src/common/module.c:1242-1281 | the same for RESUME, with a data-available event whenever the module has a queue |
| `Lifecycle.Module.ShutdownSelf` | src/common/module.c:1352-1389 | the same for SHUTDOWN, which also discards the module's events |
| `Lifecycle.Module.Process` | src/common/event.c:406-448 | each event type reaches its handler and no other type changes the module |
| `Lifecycle.TwiceIsOnce` | src/common/module.c:1074-1116 | two equal events in a row act as one if and only if it is not START on an uninitialized module |
| `Lifecycle.DedupePreservesMeaning` | src/common/event.c:133-290 | for every queue and starting status, the deduplicated queue leaves the module in the same status if and only if the queue does not end in a run of equal STARTs that finds the module uninitialized |
| `Lifecycle.StartTwiceIsNotStartOnce` | src/common/module.c:1074-1116 | a queue of the failing family: stopped instead of running |
| `Lifecycle.PostsAreDataOnly` | src/common/module.c:1137-1281 | without START, handlers post nothing that changes a status |
| `Lifecycle.WhatIsPosted` | src/common/module.c:1074-1389 | for every status and event: DATA_AVAILABLE is posted exactly when the module starts running with a backlog or goes on after a pause with a queue, RESUME exactly for a START that finds it paused, and its events go exactly when it becomes uninitialized |
| `Lifecycle.NotUntold` | src/common/module.c:1074-1281 | over every sequence of events, with any backlogs: a module that runs has been told about a backlog when it last started to run |
| `Lifecycle.WorkOffSettles` | src/common/module.c:1074-1281 | working a queue off head first, with every post added to its tail and deduplicated, is handling the events in order and a posted RESUME last |
| `Lifecycle.LastEventDecides` | src/common/module.c:1074-1389 | whatever is queued before it and whatever the handlers post, a final STOP, SHUTDOWN, START, RESUME or PAUSE has its effect, a PAUSE unless a START on the paused module is still to be honoured |
| `Lifecycle.EventAchieves` | src/common/module.c:1074-1389 | the status one event leads to, worked off with all it entails |
| `Lifecycle.DedupePreservesWork` | src/common/event.c:133-290 | with everything the handlers post, deduplication preserves the final status under the same exact condition |
| `Lifecycle.TracesAreInTheLanguage` | src/common/module.c:1074-1389 | over every event sequence the callback trace can be completed to a word of (init (start (pause resume)* pause? stop)* shutdown)*, and the status is the position in that word |
| `Lifecycle.LanguageIsTraced` | src/common/module.c:1074-1389 | conversely every prefix of every such word is the trace of some events |
| `Scheduler.PickCorrect` | src/core/ctx.c:355-415 | nothing is chosen only if no job is eligible; otherwise an eligible job is, and no group in front has one |
| `Scheduler.PickIsMostUrgent` | src/core/ctx.c:355-415 | the chosen group has the smallest priority number of all groups with an eligible job |
| `Scheduler.PickIsNearest` | src/core/ctx.c:385-411 | within its group the chosen job is the nearest eligible one, going round from where the visit starts |
| `Scheduler.PickIsFirstInScanOrder` | src/core/ctx.c:364-412 | choosing group by group is choosing the first eligible job of one scan order |
| `Scheduler.ScanOrderCovers` | src/core/ctx.c:364-412 | one call looks at every job of every group |
| `Scheduler.BoundedWaiting` | src/core/ctx.c:368-411 | whatever else changes between calls, a job that stays eligible in a group of n jobs is chosen within n visits to that group |
| `Scheduler.Context.GetJobGroup` | src/core/ctx.c:286-323 | the group of a priority is found, or inserted so that groups stay strictly sorted with one group per priority |
| `Scheduler.Context.InitJobs` | src/core/ctx.c:327-351 | one job per module in the group of its priority, the core job in the group used last, all idle and empty |
| `Scheduler.Context.ScanGroup` | src/core/ctx.c:385-411 | the circular walk returns the first eligible job of the rotation |
| `Scheduler.Context.VisitGroup` | src/core/ctx.c:368-411 | a visit moves the group's starting point by one and pops the head event of the first eligible job |
| `Scheduler.Context.NextJob` | src/core/ctx.c:355-415 | the call returns the head event of the specified choice, removes it, and keeps groups sorted and counters equal to queue lengths |
| `Scheduler.Context.HasJobs` | src/core/ctx.c:419-441 | true exactly when some job is eligible, and exactly when the next call finds one |
| `EngineProofs.StepKeepsInv` | src/core/nxlog.c:415-459 | every step of every thread keeps mutual exclusion, job tables, ownership, one place per event and work conservation |
| `EngineProofs.InvAlways` | src/core/nxlog.c:415-459 | the same after every run |
| `EngineProofs.NoLostWakeup` | src/core/nxlog.c:415-459 | with any number of workers, no run reaches a state where all sleep while a job could run, although a deduplicated event sends no signal |
| `EngineProofs.NobodySleepsOnWork` | src/core/nxlog.c:415-459 | while one worker sleeps there are at least as many workers looking for work as jobs that could run |
| `EngineProofs.ExclusiveOwnership` | src/core/nxlog.c:417-448 | after every run each live event is in exactly one place, each job is held by at most one worker and busy exactly while held, and counters equal queue lengths |
| `EngineProofs.WaitingWorkCanProceed` | src/core/nxlog.c:415-459 | in every reachable state in which a job could run, a worker can step without outside help |
| `EngineProofs.UndisturbedSearchIsPick` | src/core/ctx.c:355-415 | the step-by-step search under the mutex refines the scheduling call when nobody interferes |
| `EngineProgress.WaitingWorkIsTaken` | src/core/nxlog.c:415-459 | from every reachable state with a ready job, at most 2 n + 3 worker steps alone, n being the number of jobs, lead to a worker holding the event at the head of a queue |
| `EngineProgress.ReadyJobIsReached` | src/core/ctx.c:364-412 | while a job stays ready, no more searches enter its group than its distance from the group's starting point |
| `EngineProgress.BoundedWaitingInRuns` | src/core/ctx.c:364-412 | over every interleaved run, a ready job of a group of n jobs is passed over by fewer than n searches of its group, one more if a search that had already passed it was under way |
| `EngineHistory.FirstInFirstOut` | src/common/event.c:303-375 | after every run, what is queued or being worked on for a job was posted for that very job, or delayed for it and moved at its time or later; the events of a job are queued and taken in the order of their arrival; and what is delayed is delayed for the job and time given |
| `EngineHistory.NothingIsLost` | src/core/nxlog.c:415-459 | after every run, whatever has arrived for a job is in its queue or in a worker's hands, unless a worker has finished it, it was removed, or deduplication dropped it |
| `EngineHistory.DelayedAreKept` | src/core/nxlog.c:302-337 | after every run, a delayed event is still there with its job and time, unless it has come due or been removed |
| `Timers.Pass` | src/core/nxlog.c:302-337 | the loop moves exactly the due events, keeps the others in order, and finds the time of the earliest one left |
| `Timers.DueOrKept` | src/core/nxlog.c:307-337 | the pass splits the events by their time and loses and adds none |
| `Timers.PassIsSteps` | src/core/nxlog.c:305-337 | that pass is a sequence of expiry steps of the engine and leaves exactly the future events |
| `Timers.NotOverslept` | src/core/nxlog.c:340-361 | over every history of ticks, additions, cancellations and wake-ups, no due event is overslept by more than the time between reading the clock and starting to wait |
| `Timers.LagIsReached` | src/core/nxlog.c:302-361 | that bound is the best possible: for every positive lag and every future event some history has the thread still asleep one unit before it |
| `Timers.IdlesForATwentieth` | src/core/nxlog.c:356-361 | with no event delayed the wait takes a twentieth of a second |
| `LinkedJobs.LinkedJob.Add` | src/common/event.c:303-338 | the linked queue with its counter does what the engine's step says to a job, and signals exactly when the event is kept |
| `LinkedJobs.LinkedJob.Take` | src/core/ctx.c:388-398 | taking the head event and the job is the engine's step on it |
| `LinkedJobs.LinkedJob.Cancel` | src/common/event.c:379-402 | removing an event from anywhere in the linked queue is the engine's step on a job |
| `LinkedJobs.LinkedJob.Release` | src/core/nxlog.c:448 | finishing an event frees the job and leaves its queue as it is, as the engine's step does |
| `Routing.TargetsAreReached` | src/common/module.c:540-558 | a record goes to exactly the processors and outputs of a route that have no processor in front |
| `Routing.TargetsCounted` | src/common/module.c:540-558 | how often a module is a destination: once for each route that lets a record through to it |
| `Routing.SuccessorsFollow` | src/common/module.c:686-732 | the successors of a processor are the modules behind it with no processor in between, each once |
| `Routing.Logdata.Clone` | src/common/logdata.c:102-129 | a field by field copy whose raw event is the copy of the raw event |
| `Routing.Router.CountTargets` | src/common/module.c:539-558 | the counting pass counts exactly the destinations of the delivery pass |
| `Routing.Router.FromInput` | src/common/module.c:582-648 | one delivery from an input: pushed or freed, and the signals posted |
| `Routing.Router.FromProcessor` | src/common/module.c:699-768 | one delivery from a processor: pushed or freed, and the signals posted |
| `Routing.Router.SendRoutes` | src/common/module.c:564-651 | all destinations of all routes in order, the original last, never touched after it has been given away, no record in two queues |
| `Routing.Router.AddInput` | src/common/module.c:539-659 | an input's record: queues, signals, drops and the forward counter are those of delivering to all destinations; the original is given away if and only if there is one |
| `Routing.Router.FindNext` | src/common/module.c:686-696 | the search finds the module behind this one, and a processor at the end of its route finds itself |
| `Routing.RouteShape` | src/common/module.c:728-732 | the assertion that only outputs follow holds for all processors of a route if and only if its processors stand together with only outputs behind them |
| `Routing.Router.Progress` | src/common/module.c:663-777 | a processor's record leaves its queue and goes to the next processor or to all following outputs, the original last |
| `Routing.Conserved` | src/common/module.c:564-651 | every queue keeps what it had and gains one equal copy per time it is a destination, up to its limit without flow control; exactly the rest is dropped |
| `Routing.InputDelivers` | src/common/module.c:564-651 | an input's record: every module gets a copy for each of the routes that let it through to it, up to the limit without flow control |
| `Routing.ProcessorDelivers` | src/common/module.c:686-769 | a processor's record: every module behind it with no processor in between gets one copy, unless it is full and there is no flow control; nobody else gets any |
| `Routing.RecordMovesOn` | src/common/module.c:681-769 | with the record taken out of the processor's queue first: that queue loses its head, every module that follows with room gains the record, every other queue stays |
| `Routing.WithinLimit` | src/common/module.c:582-594 | without flow control no queue is filled above its limit |
| `Routing.BackPressure` | src/common/module.c:595-647 | a sender is told to pause if and only if it waits, has left a destination full, and, for an input, is running |
| `Routing.Informed` | src/common/module.c:582-647 | every destination is told about its data unless it was left full under flow control |
| `Routing.ToldIff` | src/common/module.c:582-647 | exactly when a destination is told: without flow control always, otherwise if the first delivery to it does not fill it, and a processor even then by an input that is not running |
| `Routing.OnlyTheseSignals` | src/common/module.c:582-768 | nothing else is ever posted |
| `FlowControl.MaySend` | src/common/module.c:354-436 | the loops decide whether all queues the module has to watch are below the given part of their limits |
| `FlowControl.InputWatchesAll` | src/common/module.c:354-436 | an input may send if and only if every processor and output of every one of its routes is below the threshold |
| `FlowControl.ResumeSenders` | src/common/module.c:832-890 | a look into a queue resumes exactly the senders in front of it that have room, and notifies exactly the running processors among them |
| `FlowControl.NotResumedWhileFull` | src/common/module.c:832-890 | no sender is resumed while one of its destinations is at seven tenths of its limit or more |
| `FlowControl.FullIsNotResumable` | src/common/module.c:861-885 | so no look of any module resumes it |
| `FlowControl.MaySendFits` | src/common/module.c:354-436 | a processor that may send at its destinations' full limits takes none over its limit and drops nothing with one record |
| `FlowControl.AllHaveSenders` | src/common/module.c:839-862 | on routes as the configuration allows them the search for the senders succeeds for every processor and output, on every route |
| `FlowControl.Look` | src/common/module.c:832-912 | what a look posts makes exactly those processors look next that are its senders with room and are notified, or resumed with a handler that has them look |
| `FlowControl.ChainReachesInputs` | src/common/module.c:832-912 | with queue sizes fixed, a look, with the looks it leads to, resumes an input if and only if on one of the module's routes the input has room and every processor in between has room and runs or is paused |
| `FlowControl.StoppedProcessorBreaksTheChain` | src/common/module.c:1242-1281 | with all queues empty a stopped or uninitialized processor keeps a look from reaching the input, a running or paused one does not |
| `Handshake.PostingHandlesLast` | src/common/event.c:133-338 | a PAUSE or RESUME posted to a queue of such events decides the status the queue leads to, although the queue is deduplicated |
| `Handshake.InvAlways` | src/common/module.c:582-953 | over every interleaving of pushing, pausing, telling, looking, resuming and popping: queued records always have a look coming, and the sender's queue leaves it paused with no look coming only after a late PAUSE |
| `Handshake.StuckIff` | src/common/module.c:582-953 | after every run a sender that ends up paused has a look or RESUME to come if and only if its last PAUSE was not posted after the receiver's last look; both stand still for good exactly when such a PAUSE has been handled, never from an input to an output |
| `Handshake.ReceiverReleasesIff` | src/common/module.c:894-953 | the receiver's own steps can get the sender running again if and only if its last PAUSE was not late |
| `Handshake.LooksSettle` | src/common/module.c:876-884 | a look settles that the sender goes on exactly if less than seven tenths of the limit are left |
| `Handshake.Stranded` | src/common/module.c:595-607 | for every limit of at least 2 a run that leaves a processor, or an input in front of a processor, paused for good with an empty queue behind it |
| `Handshake.LimitOneIsTooLow` | src/common/module.c:595-647 | with a limit of 1 the first record already is the end |
| `Bytes.ValueOfLittle` | src/common/serialize.h:112-161 | little-endian bytes give the integer back |
| `Bytes.LittleOfValue` | src/common/serialize.h:112-161 | conversely the integer read gives the bytes back, so every byte string of a length is the form of exactly one integer |
| `Bytes.HostIndependent` | src/common/serialize.h:112-161 | the bytes written are the same on hosts of either byte order |
| `Bytes.PutInt` | src/common/serialize.h:112-144 | writes exactly the little-endian bytes and nothing else |
| `Bytes.GetInt` | src/common/serialize.h:147-161 | reads the little-endian integer on either host |
| `Bytes.Int64RoundTrip` | src/common/serialize.h:132-157 | signed 64-bit integers survive the unsigned form |
| `Codec.ValueRoundTrip` | src/common/value-serialize.c:23-343 | whatever follows it, a written value is read back equal, consuming its serialized size, if and only if it is no regexp, no non-empty binary and no string over the limit |
| `Codec.RecordRoundTrip` | src/common/logdata-serialize.c:31-192 | the same for records: equal if and only if all values are restorable |
| `CodecLaws.Layout` | src/common/value-serialize.c:73-186 | type codes and layout of every kind of value, byte by byte |
| `CodecLaws.CutValue` | src/common/value-serialize.c:190-343 | no proper beginning of a written value is mistaken for a value: not enough data, or the error of every regexp |
| `CodecLaws.CutRecord` | src/common/logdata-serialize.c:97-192 | no proper beginning of a record that can be read back is anything but too short |
| `CodecLaws.ReadThenWrite` | src/common/value-serialize.c:73-343 | whatever is read from any bytes is a proper value, and writing it again gives these bytes if and only if their flags are 0 or 1 and no binary data was forgotten |
| `CodecLaws.OddBytes` | src/common/value-serialize.c:190-343 | any flag but 1 means undefined, any boolean but 1 false, and a type code outside the eight is an error |
| `CodecLaws.WhatIsLost` | src/common/value-serialize.c:190-343 | regexps and strings over the limit give their errors, binary data comes back empty |
| `CodecLaws.RawIsTheLast` | src/common/logdata-serialize.c:160-185 | the raw event of the fields read is the text of the last string field named raw_event, empty if there is none or it is undefined |
| `CodecLaws.EmptyKey` | src/common/logdata-serialize.c:119-158 | a key of length 0 is an error of its own |
| `CodecBuffers.ValueToMembuf` | src/common/value-serialize.c:73-186 | bytes written = serialized size and the buffer holds the format, or 0 if there is no room |
| `CodecBuffers.RecordToMembuf` | src/common/logdata-serialize.c:52-93 | the same for a record, with the field count written last |
| `CodecBuffers.ValueFromMembuf` | src/common/value-serialize.c:190-343 | the reader accepts exactly the format and reports each kind of error |
| `CodecBuffers.FieldFromMembuf` | src/common/logdata-serialize.c:119-158 | the same for one field |
| `CodecBuffers.RecordFromMembuf` | src/common/logdata-serialize.c:97-192 | the same for a record |
| `CodecBuffers.WriteThenRead` | src/common/logdata-serialize.c:52-192 | through real buffers, for every pair of byte orders, a record comes back |
| `LogQueue.FileRoundTrip` | src/common/logqueue.c:181-348 | a saved queue file loads completely and in order |
| `LogQueue.CutFile` | src/common/logqueue.c:256-348 | a file cut short anywhere gives exactly the records it still holds completely, in order, and an error unless it ends with one of them |
| `LogQueue.RestoreAfterSaves` | src/common/logqueue.c:181-348 | after a second save the newer records come back; the older ones only if the second queue was empty |
| `LogQueue.Queue.Push` | src/common/logqueue.c:50-77 | appends and returns the new size |
| `LogQueue.Queue.Peek` | src/common/logqueue.c:81-116 | returns the oldest record without removing it, and marks it to be popped |
| `LogQueue.Queue.Pop` | src/common/logqueue.c:120-144 | removes the record peeked at |
| `LogQueue.Queue.ToFile` | src/common/logqueue.c:181-252 | writes the specified file, and nothing for an empty queue |
| `LogQueue.Queue.FromFile` | src/common/logqueue.c:256-348 | appends what can be read before the first error, and removes the file only without error |
| `BinaryFraming.BinaryWriter` | src/common/writerfuncs.c:61-91 | exactly one frame, or the record is dropped if and only if it does not fit |
| `BinaryFraming.Input.Fill` | src/common/module.c:299-333 | received bytes go behind the unread ones, within the buffer |
| `BinaryFraming.Input.Search` | src/common/readerfuncs.c:227-234 | the loop leaves the unread bytes from the first header on, or none |
| `BinaryFraming.Input.BinaryReader` | src/common/readerfuncs.c:201-290 | refines one call on the unread bytes and the memory behind them, error paths included, stays within the buffer, and leaves room when it asks for more |
| `BinaryFraming.SeekSkips` | src/common/readerfuncs.c:227-234 | the search stops at a given header if and only if none begins before it |
| `BinaryFraming.GarbageIsSkipped` | src/common/readerfuncs.c:223-290 | bytes in front of a header do not change the call once eight bytes from the header on have arrived |
| `BinaryFraming.CutBehindGarbage` | src/common/readerfuncs.c:227-288 | with less of it arrived, the beginning of the frame is kept if and only if its four header bytes are there and memory behind the received bytes holds a length that fits the buffer and is not yet satisfied |
| `BinaryFraming.BadFramesPass` | src/common/readerfuncs.c:253-279 | what is left of a call is the end of what was there; after a bad frame at least eight bytes are gone and the rest is empty or at a header |
| `BinaryFraming.Oversized` | src/common/readerfuncs.c:242-279 | a frame larger than the buffer throws everything received away; a length from 2^32 - 8 on wraps around and passes for a short one |
| `BinaryFraming.ReadWhole` | src/common/readerfuncs.c:201-290 | a complete frame is read as its record and exactly consumed |
| `BinaryFraming.ReadPart` | src/common/readerfuncs.c:201-290 | a proper part of a frame is left alone |
| `BinaryFraming.Receive` | src/common/readerfuncs.c:201-290 | for every sequence of frames and every way to cut the stream, the records received are those sent, in order |
| `NxString.NxString.EnsureSize` | src/common/str.c:171-206 | more room than asked for, contents kept, or an error with nothing changed exactly when over the limit |
| `NxString.NxString.SetLen` | src/common/str.c:220-233 | room for a text; the buffer is replaced only if it is large |
| `NxString.NxString.Append` | src/common/str.c:242-281 | concatenation cut off one byte below the limit, with the NUL behind the text |
| `NxString.NxString.Set` | src/common/str.c:336-356 | the text is replaced, or nothing changes |
| `NxString.NxString.Escape` | src/common/str.c:449-530 | in place: the escaped text if and only if the buffer can grow to it within the limit, otherwise an escaped part and the untouched rest |
| `NxString.BelowLimit` | src/common/str.c:171-206 | a buffer that doubles within the limit reaches every size below the limit |
| `NxString.EscapesOfC` | src/common/str.c:449-530 | which bytes are escaped, and how |
| `NxString.HexFormMeans` | src/common/str.c:576-611 | a hexadecimal escape stands for its byte, in whatever case it is written and whatever follows |
| `NxString.Unescape` | src/common/str.c:534-619 | in place on every C string: all moves have the right size if and only if no recognized escape follows a malformed hexadecimal one, and then the string becomes what it stands for, with its NUL; otherwise everything in front of the first wrong move does. The length is the new length less 3 for each malformed escape, modulo 2^64 |
| `NxString.MoveIsRight` | src/common/str.c:546-610 | behind malformed escapes the move for a recognized one has the right size never, and stays within the string if and only if it has 3 bytes to move for each of them |
| `NxString.MalformedThenNewline` | src/common/str.c:556-610 | a text for which that size wraps around, and one for which the length returned does |
| `NxString.RoundTrip` | src/common/str.c:449-619 | unescaping an escaped text gives it back if and only if it has no NUL and no single quote |
| `NxString.ThereAndBack` | src/common/str.c:449-619 | both in place on one buffer: it holds the text again if and only if the text has no NUL and no single quote; escaping succeeds whenever the escaped text is below the limit |
| `LineReader.LineInput.FindBreak` | src/common/readerfuncs.c:42-50 | the loop finds the first LF |
| `LineReader.LineInput.Measure` | src/common/readerfuncs.c:54-74 | what is consumed and what is text do not depend on the byte behind the received data |
| `LineReader.LineInput.ReadNext` | src/common/readerfuncs.c:14-158 | refines one call on the unread bytes and the unfinished line |
| `LineReader.LinesAreThoseWritten` | src/common/readerfuncs.c:14-158 | the lines of a text are those that were written, with either kind of line end |
| `LineReader.WideLine` | src/common/readerfuncs.c:54-74 | the line ends of two-byte text, CR NUL LF NUL and LF NUL, are taken whole |
| `LineReader.OverlongLine` | src/common/readerfuncs.c:54-76 | a line that arrives whole is refused if and only if it is over the limit, and then stays in the buffer |
| `LineReader.PieceWithoutEnd` | src/common/readerfuncs.c:77-158 | a piece without a line end is kept; a first one is refused if and only if it is over the limit, later ones are cut off one byte below it |
| `LineReader.BinaryIsHandedOver` | src/common/readerfuncs.c:28-40 | data goes to the binary reader if and only if it starts with the binary header and no line is unfinished |
| `LineReader.TakenLine` | src/common/readerfuncs.c:92-143 | the line taken from a piece of input is the first line of the text, except for one cut, which costs a CR |
| `LineReader.ReadsTheLines` | src/common/readerfuncs.c:14-158 | for every text and every way to cut it, as many lines as the text has and its unfinished tail; the very lines if and only if no piece starts with CR LF behind a CR |
| `LineReader.CuttingIndependent` | src/common/readerfuncs.c:14-158 | every way to cut a text gives its lines if and only if it has no CR CR LF |
| `LineReader.ReadText` | src/common/readerfuncs.c:14-158 | the loop on real buffers reads the lines of every text without CR CR LF, however it arrives |
| `Expr.Soundness` | src/common/expr.c:408-515 | in every state and for all honest functions, a result has the static type unless that is unknown, and boolean expressions have the boolean tag even if undefined |
| `Expr.CombineKeeps` | src/common/expr.c:753-1655 | the same for each binary operation on operands that conform |
| `Expr.TypeErrorIff` | src/common/expr.c:1659-2055 | for defined operands of accepted types the evaluator raises a type error if and only if the operation is (in)equality of regexps, IPv6 addresses or binaries, or a sum of two datetimes |
| `Expr.NoTypeErrors` | src/common/expr.c:408-515 | an expression with known types throughout and none of those operations never raises a type error or fails an assertion, `or` included |
| `Expr.AddThenSubtract` | src/common/expr.c:1317-1499 | a sum is defined if and only if it, and for times the microseconds added, fit 64 bits; then subtraction undoes it, seconds may stand on either side of a time, and adding moves up in the order exactly for non-negative amounts |
| `Expr.SumsOverflow` | src/common/expr.c:1391-1420 | sums that are not defined |
| `Expr.QuotientAndRemainder` | src/common/expr.c:1503-1655 | quotient and remainder are defined if and only if the divisor is not 0 and it is not the least integer by -1; then they fit together, the remainder smaller than the divisor and with the dividend's sign |
| `Expr.DeMorgan` | src/common/expr.c:1207-1313 | not (x and y) and (not x) or (not y) agree if and only if not x alone is undefined |
| `Expr.InMeansMember` | src/common/expr.c:329-404 | `in` a list of constants is membership |
| `Expr.OrNeedsTypes` | src/common/expr.c:1261-1313 | with a missing field an accepted `or` does raise one |
| `Expr.MinusNeverConforms` | src/common/expr.c:2059-2164 | every accepted unary minus raises a type error or returns a value that breaks its static type |
| `ExprLaws.EqualIsIn` | src/common/expr.c:753-935 | for all expressions with defined values of one comparable type `x == y` is `x in (y)`, is equality of the values, and `!=` is its negation |
| `ExprLaws.EqualUndefined` | src/common/expr.c:753-935 | two undefined values are equal, one alone makes the result undefined |
| `ExprLaws.OrderIsTotal` | src/common/expr.c:939-1203 | exactly one of `<`, `==`, `>` holds for integers and for times, the other comparisons follow, and a sum is above what it was added to exactly for positive addends |
| `ExprLaws.LessIsTransitive` | src/common/expr.c:939-1003 | less is transitive |
| `ExprLaws.ComparisonsCompare` | src/common/expr.c:939-1203 | the comparisons of expressions are these, undefined with an undefined operand |
| `ExprLaws.ProductsRepeatSums` | src/common/expr.c:1503-1551 | multiplication repeats addition and is not defined if and only if the product does not fit |
| `ExprLaws.SumsOfStrings` | src/common/expr.c:1317-1420 | a sum with a string is the left text followed by the right one, an undefined operand adding nothing |
| `ExprLaws.StringSumsAssociate` | src/common/expr.c:1317-1420 | sums of strings may be bracketed in any way |
| `ExprLaws.MatchMeans` | src/common/expr.c:519-750 | `=~` is true if and only if the regexp matches, whichever operand it is, `!~` is its negation, and the captured strings are those of this match alone |
| `ExprLaws.BooleansDecide` | src/common/expr.c:1207-1313 | truth tables for defined operands, and a left operand that decides is the only one evaluated |
| `ExprLaws.NotNot` | src/common/expr.c:2091-2164 | double negation gives a boolean back, undefined or not, and `defined` tells which |
| `ExprLaws.FieldsAreStored` | src/common/expr.c:424-438 | a field gives back what is stored under its name, and nothing else changes it |
| `ExprLaws.ArgumentsInOrder` | src/common/expr.c:237-290 | a function gets the values of its arguments in order, each evaluated after those in front |
| `ExprLaws.CallPassesArguments` | src/common/expr.c:237-290 | and is called with just these, in the state they leave |
| `ExprLaws.CheckIsExact` | src/common/expr.c:1659-2055 | for known types an operation is accepted if and only if no defined operands of the types raise a type error or it is one of the misfits, except seconds in front of a time; and then its type is known |
| `Calendar.LeapCount` | src/common/strptime.c:709-714 | for every integer year the leap counter steps exactly at leap years |
| `Calendar.DaysInClosedForm` | src/common/strptime.c:641-645 | the closed form counts the days from 1970 year by year, in both directions |
| `Calendar.WeekdayIsRight` | src/common/strptime.c:639-650 | for every year and day the formula with C remainders gives the weekday counted day by day from Thursday 1970-01-01 |
| `Calendar.SameDayIsUnique` | src/common/strptime.c:630-656 | a day of the year is one day of one month |
| `Calendar.MonthsAlternate` | src/common/strptime.c:82-85 | the table of month lengths is the calendar's rule |
| `Calendar.Tm.SumMonths` | src/common/strptime.c:632-634 | the loop sums the lengths of the months in front |
| `Calendar.Tm.FindMonth` | src/common/strptime.c:651-655 | the loop finds the month that holds the day, and the days left |
| `Calendar.Tm.Complete` | src/common/strptime.c:626-658 | which fields are filled in for every combination of fields read, with the right weekday; and, for every combination, the exact condition on the fields read under which day of the year, month and day denote one day |
| `Calendar.MonthAlone` | src/common/strptime.c:650-656 | a year and the month March alone are completed to day 59 of March |
| `Calendar.ThereAndBack` | src/common/strptime.c:626-658 | month and day to day of the year and back is the identity for every date |
| `Schedule.ReadNumber` | src/common/schedule.c:18-35 | the loop reads the decimal number in front |
| `Schedule.ReadField` | src/common/schedule.c:39-129 | the parser computes the specified bitmap, rest or error on every string |
| `Schedule.FieldMeans` | src/common/schedule.c:39-129 | for every field written with `*`, `*/n`, numbers, ranges and stepped ranges the bitmap is the set it means |
| `Schedule.ItemOutcome` | src/common/schedule.c:62-128 | any item written with numerals is out of range if and only if one of its ends is, divides by zero if and only if its step is 0 and its range not empty, and is read otherwise |
| `Schedule.FieldFails` | src/common/schedule.c:39-62 | which first characters are refused, and a star with a missing or zero step |
| `Schedule.Crontab.Parse` | src/common/schedule.c:225-266 | all five fields in turn, with Sunday also as 7, stopping at the first error |
| `Schedule.LineMeans` | src/common/schedule.c:225-339 | a parsed line accepts exactly the times its five fields mean |
| `Schedule.Crontab.Check` | src/common/schedule.c:316-339 | a time is accepted if and only if all five bitmaps have it |
| `Schedule.Crontab.NextRun` | src/common/schedule.c:365-386 | the least accepted minute of the search range, or none if and only if there is none |
| `Schedule.StartsRightAfter` | src/common/schedule.c:368 | the search starts at the minute right after now if and only if now is not before the epoch or is a whole minute |
| `Schedule.CandidatesAfter` | src/common/schedule.c:368-375 | from the epoch on the search range is all whole minutes after now within 365 days |
| `Schedule.AfterIsLeast` | src/common/schedule.c:353-359 | the interval result is the least first + k * period after now |
| `Schedule.NextIntervalMeans` | src/common/schedule.c:351-364 | a schedule without a start begins now; any other runs at the first whole number of periods from its start that is after now |
| `Schedule.Interval.NextRun` | src/common/schedule.c:351-364 | the loop computes that result, or starts the schedule at now |
| `Schedule.RunsAdvance` | src/common/schedule.c:351-364 | asked at or after each run, the results strictly increase by whole periods |

## Left out

- Routing.Router.AddInput: the exec block that may change or drop the record first, and the fields added on arrival, are not part of this model; concurrent pops by the destinations are not either, a delivery is one step.
- Routing.Router.SendRoutes: the field contents of a record are fixed while it is routed.
- FlowControl.ResumeSenders: one look is one step. Thresholds are exact fractions.
- FlowControl.ChainReachesInputs: queue sizes and statuses are those at the first look; what interleaving does to one sender and its receiver is the subject of `Handshake`.
- Handshake.StuckIff: one sender with one receiver; the receiver runs and looks once for each DATA_AVAILABLE, so the extra looks of output modules that empty their queue in a loop are not in it; no start, stop or shutdown meanwhile; each operation on a queue and each post is one step.
- `nx_module_add_logdata_to_route`: it copies for every destination with room and would only add an easier delivery.
- EventQueue.JobQueue.RemoveEvent: events on the delayed list are removed by the engine's step `RemoveDelayed`.
- Lifecycle.Module.StartSelf: the scheduled events a module adds when it starts.
- Lifecycle.Module.StopSelf: the removal of those scheduled events.
- Lifecycle.TracesAreInTheLanguage: callbacks return normally and do not write the status.
- BinaryFraming.Input.BinaryReader: what happens after `Overrun`, a length of at least 2^32 - 8 found behind fewer than eight bytes, is not modelled; at least four bytes of readable memory follow the buffer.
- LineReader.LineInput.ReadNext: data that starts with the binary header is handed to the binary reader, shown as an outcome; the results about whole texts are for NUL-free texts with lines below the string limit, as the line format promises.
- Codec.ValueRoundTrip: the byte that a regexp write spills is arbitrary; a boolean byte other than 0 and 1 counts as false and a defined byte other than 1 as undefined.
- CodecBuffers.RecordToMembuf: for buffers that have room for the record, as all callers allocate: the code copies keys without looking at the space left; lengths stay below 2^31.
- CodecBuffers.FieldFromMembuf: with a single byte left the code reads one byte further before it reports an error; which of two errors it then reports is not modelled.
- LogQueue.Queue.FromFile: short reads and length mismatches are errors here, the code asserts that they do not happen.
- LogQueue.CutFile: the error for a record that is cut short stands for a failed assertion of the code wherever the read itself succeeds with fewer bytes.
- NxString.Unescape: what the array holds after a move with a wrong size; `NxString.MoveIsRight` says when there is one and how far it reaches.
- NxString.NxString.Append: sizes do not wrap at 32 bits, since limits are far below.
- Expr.Soundness: regular expression substitution, which writes to the record, and the lookup of functions by argument types.
- Schedule.ReadNumber: numbers do not wrap at 32 bits.
- Schedule.Crontab.Parse: the `@hourly`-style macros.
- Calendar.Tm.Complete: reading the format string itself.
- EngineProofs.NoLostWakeup: termination and reload; faults in event handlers, which the worker catches and which release the job like a normal return.
- EngineHistory.FirstInFirstOut: an event is posted with its job; that a module's events go to the module's own job is the caller's choice of the job.
- Timers.NotOverslept: clocks that are set back.
- Sockets, SSL, files, pollsets, configuration parsing, module loading and the individual input, output and processor modules.
