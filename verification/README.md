# dag: a verified model

`dag` is a C++ fiber library: a segmented byte buffer, typed codecs and streams on top of it, an
N-worker fiber scheduler, an epoll event manager, timers, hooked system calls and a logger.  This
project models the parts in which correctness depends on many functions at once and proves, with
Dafny 4.11, what they promise.  `dafny verify dfyconfig.toml` checks everything.

| part | files | main results |
|---|---|---|
| byte buffer | `FlatBuffer`, `ByteArray`, `BufferRuns` | the node list with its cursor is a flat buffer with a position, in every run; position and size are what the operations alone make them, each read returns the bytes last written there; zero-copy views tile the flat bytes; a file carries the contents between any two block sizes |
| codecs | `Bits`, `Endian`, `Varint`, `Codec`, `TypedIO`, `RoundTrip` | bit operations amount to the arithmetic of LEB128 and ZigZag; which lists of typed values, written to a new array, come back: exactly, for every block size and byte order |
| streams | `Streams` | filling write buffers is a write; the fixed-size loops go on through positive short counts, move exactly the bytes asked for if those get there, and otherwise stop at the first answer that is not positive with exactly the bytes moved so far |
| scheduler | `TaskQueue`, `FiberProtocol`, `Shutdown` | FIFO per pin, nothing lost; a fiber's stack is never live on two workers in any interleaving, and only because of the per-fiber mutex; exactly when a fiber can be reset; shutdown leaves nothing behind exactly with one worker and no timers or events from outside |
| events | `IOEvents`, `IOManager` | masks, contexts, kernel interest and counter agree in every run; every registration is waiting, queued or deleted; exactly when `delEvent` breaks this and when a report of epoll_wait can no longer be dispatched |
| timers | `Timers`, `TimerExpiry`, `TimerManager`, `TimerRuns`, `ResetRaces`, `Tickle` | what an expiry returns and leaves; exactly when its loop ends and when no recurring timer is lost; one-shots fire once, cancelled timers never; exactly which timers in the set lack a callback and when a cancelled timer stays out, and when a reset can come to change a deadline inside the set, reset being interleaved with everything else; sleepers are tickled in time exactly in pools of one worker |
| hooked I/O | `HookedIo`, `HookedWaits` | ETIMEDOUT only through a timer of the same call; a stale callback causes at most a retry; exactly when a waiting call's own timers can still wake it, and how that is lost |
| log patterns | `LogPattern`, `LogFormatter` | reading and writing patterns are mutually inverse on all patterns; the exact condition for the round trip of items; the exact patterns that fail |

Two kinds of model are used.  Code that works on its own data is a class or a method, proved against
functions on values (`Buf`, `Log`, `Io`, `Manager`, `Scan`); the theorems are about those functions and
so carry over.  Protocols between threads are step relations: each critical section, and each access to
shared state outside one, is a step; the theorems quantify over all sequences of steps.

What the outside world decides is a parameter or a choice: the clock, what `epoll_ctl` answers, how many
bytes the kernel moves, the byte order of the host, the uninitialised bytes of a new node.

`Runs` holds what all of them share: runs of a step function, invariants over runs, reachability.

Where the code does not do what it should, two things are proved: the exact condition under which it
does, and a concrete run or input on which it does not.

| condition | failing run or input |
|---|---|
| `WriteThenRead` | `EmptyStringCrashes`, `LongStringIsLost` |
| `LeavesNothingIff` | `OutsideTimerIsLeft`, `InsideTimerIsLeft` |
| `BeginsAtEntryIff`, `ResetKeepsEntryIff` | `ResetTooSoon`, `ResetIsLost` |
| `DelKeepsInvIff` | `DelBreaksInv` |
| `DispatchSafeIff` | `StaleReportAborts` |
| `LoopEndsIff` | `ZeroPeriodNeverEnds` |
| `NoTimerLostIff` | `EqualPeriodsLose` |
| `CancelSparesOthersIff` | `CancelHitsAnother` |
| `CallbackIff`, `StaysOutIff` | `CancelledAndBack` |
| `BreakableIff` | `DeadlineChangedInSet` |
| `AllTickledIff` | `TwoIdleWorkersOversleep` |
| `WakesIff`, `AtRegistration`, `ProspectStays` | `LostTooSoon`, `LostDropped`, `LostErased`, `LostRefused` |
| `RoundTripIff` | `FormatsRunTogether` |
| `FailsIff` | `BareDateReadsBeyond` |

## Model

| member | source | states |
|---|---|---|
| `Endian.WireIndependentOfHost` | dag/bytearray.cpp:72-112 | swapping when the array's order is not the host's puts the same bytes on the wire on every host: network order (Appendix B of RFC 791) or its mirror image |
| `Endian.FromWireInverts` | dag/bytearray.cpp:217-249 | reading a fixed-width value undoes writing it in every combination of array order and host order, and every byte string is the image of what it reads as |
| `Endian.UnwireOfWire` | dag/utils/endian.h:17-47 | a value of any width survives the swap to and from the wire |
| `Endian.BigEndianLeads` | dag/bytearray.cpp:33-41 | in the default order the first byte on the wire is the most significant one |
| `Endian.WireByte` | dag/bytearray.cpp:64-112 | byte i of a value on the wire is its base-256 digit i, counted from the most significant one in network order and from the least significant one otherwise |
| `Varint.EncodeInto` | dag/bytearray.cpp:143-152 | the masking and shifting loop leaves exactly the unsigned LEB128 bytes (section 7.6 of DWARF 5) in its buffer and stays inside it |
| `Varint.EncodeVarint` | dag/bytearray.cpp:143-167 | with the 5- or 10-byte local buffer, the bytes handed to `write` are the LEB128 bytes of every 32- or 64-bit value |
| `Varint.EncodingFits` | dag/bytearray.cpp:143-167 | no 32-bit value needs more than 5 bytes, no 64-bit value more than 10 |
| `Varint.Leb128Length` | dag/bytearray.cpp:143-167 | n bytes are enough exactly for the values below 128 to the n |
| `Varint.Leb128Byte` | dag/bytearray.cpp:143-167 | byte i of an encoding is base-128 digit i of the value, low first, with the flag on all bytes but the last |
| `Varint.DecodeInverts` | dag/bytearray.cpp:255-285 | decoding an encoding followed by any suffix returns the value and consumes exactly its bytes |
| `Varint.DecodeAny` | dag/bytearray.cpp:255-285 | for any bytes at all: the loop stops behind the first byte without a flag or when the width is full, is cut short exactly if it runs out before, and returns the number its groups make up, cut at the width |
| `Varint.EncodeZigZagCorrect` | dag/bytearray.cpp:114-128 | with wrap-around of the negation and the doubling, the result is 2v for v >= 0 and -2v - 1 otherwise, for every value of the width, the least one included |
| `Varint.DecodeZigZagCorrect` | dag/bytearray.cpp:130-136 | the shift-and-xor form is the inverse mapping, and its result fits the signed type |
| `Varint.ZigZagDecodeEncode` | dag/bytearray.cpp:114-136 | decoding undoes encoding on the full signed range |
| `Varint.ZigZagEncodeDecode` | dag/bytearray.cpp:114-136 | encoding undoes decoding on the full unsigned range |
| `FlatBuffer.CeilDivIsCeiling` | dag/bytearray.cpp:523-523 | the number of nodes added is the integer ceiling of missing bytes over block size |
| `FlatBuffer.GrowTwice` | dag/bytearray.cpp:513-542 | growing for n bytes and then for m more ends at the capacity of growing once for n + m |
| `FlatBuffer.WroteTwice` | dag/bytearray.cpp:346-379 | two writes in a row leave the buffer that one write of both leaves, capacity included |
| `ByteArrays.ByteArray.constructor` | dag/bytearray.cpp:33-41 | one node, nothing in it, position 0, network order |
| `ByteArrays.ByteArray.AddCapacity` | dag/bytearray.cpp:513-542 | afterwards n bytes fit behind the position; capacity is the old one rounded up by whole nodes, every old byte, position, size and node stays, and the cursor is set if it was null |
| `ByteArrays.ByteArray.Write` | dag/bytearray.cpp:346-379 | for any block size and any data, the flat bytes are the old ones with the data at the position; the position moves by the data, the size is the larger of it and the old one, the capacity stays or is the least number of whole nodes that holds the data; the list invariant (position <= size <= capacity = nodes * base, cursor at position / base, null only at capacity) is kept |
| `ByteArrays.ByteArray.Read` | dag/bytearray.cpp:381-408 | returns the flat bytes at the position and advances; throws exactly when fewer are readable; meets the null cursor exactly when nothing is thrown and the position is the capacity |
| `ByteArrays.ByteArray.ReadAt` | dag/bytearray.cpp:410-445 | for every position: throws exactly when n exceeds the unsigned, wrapping difference of size and p; the walk from the root or the copying loop comes to dereference a null link exactly when p is a block or more behind the capacity or the bytes do not end within it; meets the null cursor exactly at the capacity; otherwise returns the flat bytes from p on; changes nothing |
| `ByteArrays.ByteArray.SetPosition` | dag/bytearray.cpp:447-463 | refused exactly beyond the capacity, and then nothing moves; otherwise position is v, size is the larger of v and the old one, the cursor is the node of v, and no byte changes |
| `ByteArrays.ByteArray.Clear` | dag/bytearray.cpp:333-344 | the root node alone stays, with its bytes; position and size are 0, the capacity is one block, the cursor is the root |
| `ByteArrays.ByteArray.WriteToFile` | dag/bytearray.cpp:465-492 | the file holds exactly the readable bytes, and the array is unchanged |
| `ByteArrays.ByteArray.ReadFromFile` | dag/bytearray.cpp:494-511 | reading the file block by block is one write of the whole file |
| `ByteArrays.ByteArray.ToString` | dag/bytearray.cpp:544-552 | the readable bytes, without ever meeting the null cursor |
| `ByteArrays.ByteArray.GetReadBuffers` | dag/bytearray.cpp:570-599 | the slices are non-empty stretches of nodes that follow each other without gap from the position on and total min(len, read size); nothing changes |
| `ByteArrays.ByteArray.GetReadBuffersAt` | dag/bytearray.cpp:601-636 | the same from p on, but for min(len, read size at the position) bytes; within the data if p is not behind the position; the walk or the slicing loop comes to dereference a null link exactly when there are bytes and they do not end within the capacity |
| `ByteArrays.ByteArray.GetWriteBuffers` | dag/bytearray.cpp:638-663 | grows like addCapacity, and the slices tile exactly the len bytes behind the position |
| `ByteArrays.TileDisjoint` | dag/bytearray.cpp:638-663 | no two slices of a tiling share a byte |
| `ByteArrays.ByteArray.Gather` | dag/bytearray.cpp:570-636 | the slices, concatenated, are the flat slice of their total length |
| `ByteArrays.ByteArray.Scatter` | dag/stream/socket_stream.cpp:31-42 | filling the slices in order puts the data at the start of the tiled stretch and nowhere else |
| `BufferRuns.Perform` | dag/bytearray.cpp:333-463 | one operation on the node list is one step of the flat buffer, with the same visible result |
| `BufferRuns.Run` | dag/bytearray.cpp:333-542 | every run of write, read, setPosition and clear on the node list is a run of the flat buffer, result by result |
| `BufferRuns.StepShaped` | dag/bytearray.cpp:333-542 | every step keeps position <= size <= capacity and a capacity of whole nodes |
| `BufferRuns.LastWriteWins` | dag/bytearray.cpp:333-463 | at every point of every run the buffer holds, at each offset written since the last clear, the byte last written there |
| `BufferRuns.ReadReturnsLastWrite` | dag/bytearray.cpp:346-408 | so every successful read returns, offset by offset, what was last written there |
| `BufferRuns.PositionIs` | dag/bytearray.cpp:333-463 | in every run the position is what the operations alone make it: 0 after a clear, moved by writes and successful reads, set by accepted setPositions |
| `BufferRuns.SizeIsHighest` | dag/bytearray.cpp:333-463 | in every run the size is the highest position that a write or an accepted setPosition has reached since the last clear, 0 if none has |
| `BufferRuns.AnswersAre` | dag/bytearray.cpp:333-463 | in every run setPosition is refused exactly beyond the capacity, a read throws exactly beyond the data and meets the null cursor exactly at the capacity, and a clear leaves one block and nothing readable |
| `BufferRuns.ThroughFile` | dag/bytearray.cpp:465-511 | write-out and read-in give equal readable contents for any two block sizes |
| `Codec.ParseInverts` | dag/bytearray.cpp:64-331 | every typed value reads back from its encoding, whatever follows, using up exactly its bytes; strings if their length fits the prefix |
| `Codec.EncodedBytes` | dag/bytearray.cpp:64-203 | byte by byte, what every typed value is written as: integers and length prefixes in two's complement in base 256 in the array's order, varints and ZigZag numbers in as few base-128 digits as hold them, strings as they are behind their length |
| `Codec.ParseFixedMeans` | dag/bytearray.cpp:205-249 | a fixed-width read of any bytes finds the number of the type that has these bytes, and uses nothing up if there are too few |
| `Codec.ParseStringMeans` | dag/bytearray.cpp:301-331 | a string read of any bytes: the characters as many as the prefix says; with too few for the prefix nothing is used up, with too few for the string the prefix is |
| `Codec.LongStringIsCut` | dag/bytearray.cpp:181-194 | a string too long for its prefix is never read back: the length is cut to the prefix's width |
| `Codec.LongStringReadsEmpty` | dag/bytearray.cpp:181-184 | 65536 bytes behind a two-byte length read back as the empty string |
| `Codec.EncodeAllSnoc` | dag/bytearray.cpp:64-203 | the encodings of successive writes follow each other |
| `TypedIO.WriteFixed` | dag/bytearray.cpp:64-112 | on the node list, for either host order, writeF* is a write of the wire bytes |
| `TypedIO.WriteVarint` | dag/bytearray.cpp:139-167 | on the node list, writeUint32 and writeUint64 are a write of the LEB128 bytes |
| `TypedIO.WriteItem` | dag/bytearray.cpp:64-203 | every typed write is one write of the value's encoding |
| `TypedIO.ReadVarint` | dag/bytearray.cpp:251-285 | the byte-by-byte loop decodes the readable bytes; cut short, it throws with all of them consumed |
| `TypedIO.ReadInteger` | dag/bytearray.cpp:205-285 | integer reads return what the readable bytes parse to and consume exactly that, or throw, a fixed-width read with nothing consumed, a varint read with everything |
| `TypedIO.ReadString` | dag/bytearray.cpp:301-331 | string reads return what the readable bytes parse to, throw with the prefix consumed, or meet the null cursor on an empty string at the capacity |
| `RoundTrip.WriteAll` | dag/bytearray.cpp:64-203 | any list of typed writes is one write of the concatenated encodings |
| `RoundTrip.ReadAll` | dag/bytearray.cpp:205-331 | reading the same types in order returns every value exactly when every string fits its prefix and no empty string ends a full array; when they fit, nothing is left to read |
| `RoundTrip.FreshCapacity` | dag/bytearray.cpp:513-542 | a new array is full after n bytes exactly when n is a positive multiple of the block size |
| `RoundTrip.WriteThenRead` | dag/bytearray.cpp:64-463 | for every block size, byte order, host and list of typed values: written to a new array, rewound and read as the same types, every value comes back exactly when every string fits its prefix and it is not so that the last value is an empty string and the encodings fill whole nodes; when the strings fit, all others come back in order and position equals size |
| `RoundTrip.EmptyStringCrashes` | dag/bytearray.cpp:301-307 | an empty string whose length fills the only node meets the null cursor |
| `RoundTrip.LongStringIsLost` | dag/bytearray.cpp:181-184 | a string of 65536 bytes with a two-byte length does not come back |
| `Streams.AppendedLikeWrite` | dag/bytearray.cpp:638-663 | filling write buffers and moving the position leaves the position, size and contents that `write` of the same bytes leaves |
| `Streams.FillAndMove` | dag/stream/socket_stream.cpp:31-42 | filling the first rt <= len bytes of the slices and setPosition(pos + rt) copies those bytes to the position and moves position and size |
| `Streams.Receive` | dag/stream/socket_stream.cpp:31-42 | the bytes the kernel delivered are appended at the position and gone from the socket; nothing moves when it delivers none or the socket is not connected; the answer is the one recorded |
| `Streams.Send` | dag/stream/socket_stream.cpp:51-62 | the bytes the kernel took are the first readable ones; the position advances by exactly those |
| `Streams.ReadFixSize` | dag/stream.cpp:21-31 | given the answers of its calls, in order: the loop goes on as long as they are positive and short of length in sum; it returns length with exactly length bytes appended in order if they get there, otherwise the answer that was not positive, with exactly the bytes of those before it appended |
| `Streams.FinishedIff` | dag/stream.cpp:21-57 | everything is moved exactly if all answers are positive, and they then sum to length; otherwise the result is the last answer, the first that is not positive, and the bytes moved are the sum of the others, short of length |
| `Streams.WriteFixSize` | dag/stream.cpp:47-57 | the same for sending, the bytes being the first readable ones and the position advanced by exactly those sent |
| `Streams.Transfer` | dag/stream.cpp:21-57 | writeFixSize from one array and readFixSize into another, of any two block sizes, each following its own sequence of answers: the bytes received are the first readable ones in order, all of them on success; on an early stop each position has advanced by exactly the bytes its answers moved |
| `TaskQueue.FirstEligible` | dag/scheduler.cpp:108-129 | the scan stops at the first entry that has no thread or the scanning one |
| `TaskQueue.Queue.SchedulerLock` | dag/scheduler.h:61-81 | an entry with something to run goes to the end, an empty one nowhere; a tickle is due exactly when the queue was empty |
| `TaskQueue.Queue.Pick` | dag/scheduler.cpp:106-129 | the entry taken has no thread or the caller's, no entry before it has either, the order of the rest stays and the active count goes up; nothing is taken exactly if no entry has either, and then nothing changes; others are woken exactly if entries remain |
| `TaskQueue.FifoPerPin` | dag/scheduler.cpp:103-135 | in every run and for every pin, entries taken followed by entries queued are the accepted ones in order of acceptance |
| `TaskQueue.Conserved` | dag/scheduler.h:61-81 | accepted entries are exactly the queued plus the taken ones, as multisets |
| `TaskQueue.TakersAreEligible` | dag/scheduler.cpp:112-127 | over every run, each entry taken has no thread or its taker's, and the assertion that it holds a fiber or a callback never fails |
| `FiberProtocol.InvPreserved` | dag/scheduler.cpp:103-158 | every step of every worker (scan, lock, resume, swap in, run, yield, swap out, unlock) and of outside threads, reset at any time in state TERM included, keeps the protocol invariant |
| `FiberProtocol.ReachableInv` | dag/fiber.cpp:165-242 | the invariant holds after every interleaving of any number of workers |
| `FiberProtocol.NeverLiveTwice` | dag/scheduler.cpp:137-158 | a fiber's stack is executed by at most one worker, which holds the fiber's mutex and resumed it last |
| `FiberProtocol.ResumeFindsReady` | dag/fiber.cpp:165-189 | the READY assertion of resume never fails |
| `FiberProtocol.EntersSavedContext` | dag/fiber.cpp:165-222 | a fiber queued again before its yield was complete is entered only after its context is saved and its stack left |
| `FiberProtocol.YieldsToResumer` | dag/fiber.cpp:195-222 | yield returns to the worker that last resumed the fiber, leaving nobody on its stack |
| `FiberProtocol.BeginsAtEntry` | dag/fiber.cpp:142-189 | if fibers are reset only when nobody executes them, a callback given to the constructor or to reset begins at its entry: resume never continues an ended run of a reused fiber |
| `FiberProtocol.BeginsAtEntryIff` | dag/fiber.cpp:142-242 | over all runs, callbacks begin at their entry exactly under that rule |
| `FiberProtocol.ResetKeepsEntryIff` | dag/fiber.cpp:142-159 | reset of a fiber in state TERM leaves it fit to begin its new callback exactly when nobody is on the fiber's stack any more |
| `FiberProtocol.EarlyResetLosesContext` | dag/fiber.cpp:142-222 | in every other state, the swap-out that follows leaves the fiber READY with its new callback due and a context that does not begin it |
| `FiberProtocol.ResetIsLost` | dag/fiber.cpp:142-242 | a concrete run: reset between TERM and the swap-out, whose saved context replaces the new one; the fiber is then entered in its ended run with the new callback still due |
| `FiberProtocol.MutexIsNeeded` | dag/scheduler.cpp:139-145 | without the per-fiber mutex a concrete run puts two workers on one stack |
| `Shutdown.ReachableInv` | dag/scheduler.cpp:103-171 | if stopping() were one step, after every run: the active count is the number of workers in a task, and once all idle fibers have ended nothing is left |
| `Shutdown.NothingLeftBehind` | dag/ioscheduler.cpp:322-347 | if stopping() were one step, with no outside submissions after the stop: when every worker has left run there is no queued entry, registered event or timer |
| `Shutdown.SoloLeavesNothing` | dag/ioscheduler.cpp:322-347 | with stopping() as the three reads it is: a single worker leaves nothing behind, if other threads add no timers or events |
| `Shutdown.LeavesNothingIff` | dag/ioscheduler.cpp:322-347 | for every pool: with the three reads, nothing is ever left behind exactly when there is one worker and no other thread adds timers or events |
| `Shutdown.OutsideTimerIsLeft` | dag/ioscheduler.cpp:322-326 | for every pool, a run that leaves a timer added from outside between the first read and the stop |
| `Shutdown.InsideTimerIsLeft` | dag/scheduler.cpp:103-171 | for every pool of two or more, a run without outside timers: a worker whose idle fiber has ended takes a late callback and adds a timer between another's reads |
| `IOEvents.AddKeepsInv` | dag/ioscheduler.cpp:100-169 | addEvent keeps table, kernel and counter in step, whether epoll_ctl accepts or refuses |
| `IOEvents.CancelKeepsInv` | dag/ioscheduler.cpp:211-256 | so does cancelEvent |
| `IOEvents.CancelAllKeepsInv` | dag/ioscheduler.cpp:258-310 | so does cancelAll, and if accepted no event is left |
| `IOEvents.DispatchKeepsInv` | dag/ioscheduler.cpp:394-441 | so does one round of the dispatch loop whose assertion holds |
| `IOEvents.TriggerBalances` | dag/ioscheduler.cpp:80-98 | a triggered registration leaves the table and puts exactly one entry, its callback or fiber, at the end of the queue |
| `IOEvents.DelKeepsInvIff` | dag/ioscheduler.cpp:171-209 | delEvent keeps the bookkeeping in step exactly when epoll_ctl succeeds or there was nothing to delete |
| `IOEvents.DelBreaksInv` | dag/ioscheduler.cpp:199-205 | a reachable state in which a refused delEvent breaks it |
| `IOEvents.DispatchSafeIff` | dag/ioscheduler.cpp:379-441 | over every run, a report that epoll_wait made can be dispatched without failing the assertion of triggerEvent exactly when none of its events was removed since, or all were and no error brings in others, or epoll_ctl refuses |
| `IOEvents.StaleReportAborts` | dag/ioscheduler.cpp:379-441 | a run on which it fails: both events are reported, another thread cancels one of them, the report is dispatched |
| `IOEvents.EveryRunKeepsInv` | dag/ioscheduler.cpp:80-310 | in every run, failed epoll_ctl in add, cancel and dispatch included: counter equals registered bits, contexts are in use exactly where bits are set, kernel masks equal table masks, for each waiter successful adds equal waiting plus queued plus deleted registrations, and of each undispatched report it is known which events are gone |
| `IOManagers.IOManager.EpollCtl` | dag/ioscheduler.cpp:135-150 | callers issue ADD only for descriptors the kernel does not know, MOD and DEL only for known ones, DEL exactly with an empty mask; a refused call changes nothing |
| `IOManagers.IOManager.constructor` | dag/ioscheduler.cpp:44-71 | 32 unused descriptors, none of them watched, nothing pending or queued; the invariant |
| `IOManagers.IOManager.AddEvent` | dag/ioscheduler.cpp:100-169 | the table grows to 1.5 times fd if fd has no context; aborts exactly on an event already registered; if accepted, the bit of this event is set, its context is the body, the kernel's mask is the table's and the counter goes up by one; the other event, its context, all other descriptors and the queue stay; refused, nothing but the growth; the invariant is kept |
| `IOManagers.IOManager.DelEvent` | dag/ioscheduler.cpp:171-209 | true exactly if the event was registered, and then its bit and its context are cleared, those of the other event and of other descriptors stay, the counter goes down by one and nothing is queued; the kernel follows, and the invariant holds, exactly if epoll_ctl succeeded or nothing was deleted |
| `IOManagers.IOManager.CancelEvent` | dag/ioscheduler.cpp:211-256 | true exactly if the event was registered and epoll_ctl succeeded, and then its bit and context are cleared, the other event's stay, its waiter goes to the end of the queue and the kernel watches what is left; otherwise nothing changes |
| `IOManagers.IOManager.CancelAllEvents` | dag/ioscheduler.cpp:258-310 | true exactly if something was registered and epoll_ctl succeeded, and then the descriptor is as new, unknown to the kernel, and the waiters are queued, reading before writing; otherwise nothing changes |
| `IOManagers.IOManager.DispatchEvent` | dag/ioscheduler.cpp:379-442 | one round of the dispatch loop, error reports included: aborts exactly if epoll_ctl accepts, a registered event is reported and a reported one is not registered; otherwise exactly the events that are both, all registered ones on an error, leave the table, their waiters go to the end of the queue, reading first, and the kernel watches what is left; the invariant is kept |
| `Timers.EraseSorted` | dag/timer.cpp:87-91 | erasing by deadline keeps the order and removes exactly the timer that has that deadline, whichever it is |
| `Timers.InsertSorted` | dag/timer.cpp:87-91 | inserting keeps the order; a timer whose deadline is taken is dropped, any other is added |
| `TimerExpiry.DueMeans` | dag/timer.cpp:143-160 | the timers an expiry takes are exactly those with a deadline up to now, in strictly increasing order |
| `TimerExpiry.ExpireMeans` | dag/timer.cpp:143-160 | the timers taken are the first ones of the set: all after a clock that has gone back by more than an hour, those with a deadline up to now otherwise; of these one-shots are gone without a callback and recurring ones have the deadline now + period; every other timer and record is as it was |
| `TimerExpiry.NoTimerLostIff` | dag/timer.cpp:147-159 | every due recurring timer is still in the set exactly when, without a rollover, none has period zero, no two have the same period and none is re-armed to the deadline of a timer not due; after a rollover, when no timer recurs |
| `TimerExpiry.LoopEndsIff` | dag/timer.cpp:148-160 | for every state of the set, the loop ends exactly when every due timer that would be due again at once (recurring with period zero, or recurring at all after a rollover) is crowded out: its new deadline is later than its old one and held by another timer |
| `TimerExpiry.OrdinaryEnds` | dag/timer.cpp:148-160 | in particular it ends with positive periods and, after a rollover, with one-shots only |
| `TimerManagers.TimerManager.NewTimer` | dag/timer.cpp:77-108 | the new timer has the given period, callback and recurrence and is due the period after now; it is in the set exactly if no other timer had its deadline; no other timer changes |
| `TimerManagers.TimerManager.AddTimer` | dag/timer.cpp:168-185 | the set stays in order and keeps its timers; the new one is in it exactly if no other had its deadline; a tickle is asked for exactly if no timer is due before it and none was asked for since the last getNextTimer |
| `TimerManagers.TimerManager.CancelTimer` | dag/timer.cpp:10-28 | true exactly if there was a callback, and then it is gone and exactly the holder of the timer's deadline, whichever it is, has left the set; otherwise nothing changes |
| `TimerManagers.TimerManager.RefreshTimer` | dag/timer.cpp:30-46 | true exactly if there is a callback and the timer's deadline is in the set; then the timer is due its period after now, the holder of its old deadline has left, and it is in the set exactly if its new deadline is not taken; nothing else of any timer changes, and nothing at all otherwise |
| `TimerManagers.TimerManager.ResetErase` | dag/timer.cpp:54-69 | the first critical section: true exactly if there is a callback and the timer's deadline is in the set, and then exactly the holder of that deadline leaves it; no timer changes |
| `TimerManagers.TimerManager.ResetInsert` | dag/timer.cpp:70-73 | the rest: the period is the new one, the deadline is that long after now, or moves by the difference of the periods; callback, recurrence and all other timers stay; the timer is in the set exactly if its deadline was free, and a tickle is asked for exactly if no timer is due before it and none was asked for |
| `TimerManagers.TimerManager.ResetTimer` | dag/timer.cpp:48-75 | both without anybody in between: true exactly if nothing was to be done or there is a callback and its deadline is in the set; then the period is the new one and the deadline is that long after now, or moves by the difference of the periods; callback, recurrence and all other timers stay; false changes nothing |
| `TimerManagers.TimerManager.GetNextTimer` | dag/timer.cpp:124-141 | none exactly without timers; otherwise no timer is due before a positive timeout, in whole milliseconds, has passed, and some timer is before one more has; the tickle flag is cleared and nothing else changes |
| `TimerManagers.TimerManager.ListExpired` | dag/timer.cpp:143-160 | the loop ends and returns the callbacks, null ones included, of exactly the due timers, front first: all after a clock that has gone back by more than an hour, otherwise those with a deadline up to now; due one-shots lose callback and place, due recurring ones are due their period after now, nothing else changes |
| `TimerRuns.StepKeepsInv` | dag/timer.cpp:10-75 | every operation, each of the three steps of reset included, keeps: the set in order, no callback on a cancelled timer or a fired one-shot, none missing in the set but on timers that a reset inserted too late |
| `TimerRuns.WriteMeans` | dag/timer.cpp:70-72 | the step of reset outside both critical sections: the period is the new one, the deadline is that long after now, or moves by the difference of the periods; nothing else of any timer, and not the set, changes |
| `TimerRuns.CallbackIff` | dag/timer.cpp:48-75 | over every run: the set is in order, and a timer in it lacks a callback exactly if a reset inserted it after its callback had gone, by a cancel or by firing while the reset was in progress |
| `TimerRuns.BrokenMeans` | dag/timer.cpp:70-72 | over every run: a reset changes the deadline of a timer inside the set only if somebody has put the timer back since the reset took it out |
| `ResetRaces.BreakableIff` | dag/timer.cpp:48-75 | in every reachable state, a reset that has yet to write its timer's deadline can still come to do so inside the set, in some continuation, exactly if the timer is in the set, or has a callback, or another reset of it is in progress |
| `ResetRaces.EveryResetCanBreak` | dag/timer.cpp:54-72 | so every reset can be broken when it has just taken its timer out |
| `TimerRuns.OneShotAtMostOnce` | dag/timer.cpp:143-185 | over every run a one-shot's callback is delivered at most once, after which the timer has none |
| `TimerRuns.CancelledIsSilent` | dag/timer.cpp:10-28 | after a cancel that returned true, no later expiry delivers the callback, whatever is done in between |
| `TimerRuns.StaysOutIff` | dag/timer.cpp:10-75 | after such a cancel, the timer stays out of the set in every continuation exactly when no reset of it is in progress |
| `TimerRuns.CancelledAndBack` | dag/timer.cpp:48-75 | a run in which a cancel falls into a reset: the recurring timer ends up in the set without a callback, and cannot be cancelled |
| `TimerRuns.DeadlineChangedInSet` | dag/timer.cpp:48-75 | a run in which a refresh falls into a reset, which then changes a deadline inside the set |
| `TimerRuns.ZeroPeriodNeverEnds` | dag/timer.cpp:148-160 | a reachable state whose expiry never ends: a recurring timer of period zero |
| `TimerRuns.EqualPeriodsLose` | dag/timer.cpp:153-156 | a reachable state whose expiry loses a timer: two recurring timers of equal period |
| `TimerRuns.CancelSparesOthersIff` | dag/timer.cpp:22-26 | cancel leaves the other timers in the set exactly when the cancelled timer holds its deadline itself or nobody does; a timer dropped for a taken deadline takes that deadline's holder with it |
| `TimerRuns.CancelHitsAnother` | dag/timer.cpp:22-26 | a reachable state in which it does |
| `Tickle.StepKeepsInv` | dag/ioscheduler.cpp:312-365 | with at most one idle worker every step (timer operations with reset in its three steps, tickle and its two halves, getNextTimer by anyone, sleep, interrupt, wake, expiry, drain) keeps the sleeper covered |
| `Tickle.SleeperIsTickled` | dag/timer.cpp:124-185 | over every run: if a timer is due before the end of the sleep an idle worker is in or about to begin, a tickle is on its way or lies in the pipe with its edge not yet reported |
| `Tickle.NoOversleep` | dag/ioscheduler.cpp:348-365 | so when a timer is due, a blocked worker's sleep is over or it is being woken; and the edge-triggered pipe never holds bytes that epoll_wait will not report |
| `Tickle.RefreshAnnounced` | dag/timer.cpp:30-46 | refresh, which sends no tickle, makes no deadline earlier on a clock that does not go back |
| `Tickle.RefreshEarlierIff` | dag/timer.cpp:30-46 | refresh moves a deadline earlier exactly when the clock now shows less than the time the period began |
| `Tickle.SleepIsShort` | dag/ioscheduler.cpp:348-365 | a positive timeout, rounded down, never reaches past the front deadline; it is five seconds, or less and ends within a millisecond of a deadline |
| `Tickle.TwoIdleWorkersOversleep` | dag/ioscheduler.cpp:379-389 | with two idle workers a concrete run leaves one asleep past a timer's deadline, the other having drained its tickle |
| `Tickle.AllTickledIff` | dag/ioscheduler.cpp:312-389 | in every run of a pool of n workers sleepers are tickled in time, exactly when n is at most one |
| `HookedIo.StepKeepsInv` | dag/hook.cpp:110-178 | every step of any number of calls and of their timer callbacks keeps the invariant, timers being dropped or erased for equal deadlines and cancelEvent being refused included |
| `HookedIo.TimeoutIsOwn` | dag/hook.cpp:125-178 | a call exits with ETIMEDOUT only if a timer it armed itself fired before it returned and marked it |
| `HookedIo.StaleCallbackRetries` | dag/hook.cpp:130-145 | a callback of another call wakes the registered call and changes nothing else; unless its own timer marked it, the call goes back to trying |
| `HookedIo.NothingLeftOver` | dag/hook.cpp:147-178 | a call that has returned has no timer in the set, no registration and no wake-up outstanding |
| `HookedWaits.WakesIff` | dag/hook.cpp:125-165 | in every reachable state, some run of a registered call's own timers wakes it exactly if a callback of it is past its test, or it is not marked and a timer of it is in the set or in flight; otherwise no run at all does without the event or another call's callback |
| `HookedWaits.StrandedForever` | dag/hook.cpp:147-165 | a call without that prospect stays registered and unwoken in every such run |
| `HookedWaits.ProspectStays` | dag/hook.cpp:125-178 | while registered, the prospect never comes back, and is lost only by a cancel of another timer with the same deadline, which erases the call's timer, or by a refused cancelEvent |
| `HookedWaits.AtRegistration` | dag/hook.cpp:125-160 | when a call with a timeout registers it has that prospect exactly if a callback past its test has still to cancel the event, or it is not marked and its timer was not dropped or an earlier one is in flight |
| `HookedWaits.LostTooSoon` | dag/hook.cpp:130-160 | a run in which the callback runs between addConditionTimer and addEvent; nothing but the event or another call wakes the call |
| `HookedWaits.LostDropped` | dag/hook.cpp:125-147 | a run in which the timer is dropped because another call's has its deadline, with the same end |
| `HookedWaits.LostErased` | dag/hook.cpp:163-168 | a run in which another call, cancelling its dropped timer, erases the timer of the waiting call, with the same end |
| `HookedWaits.LostRefused` | dag/ioscheduler.cpp:245-252 | a run in which epoll_ctl refuses the callback's cancelEvent, with the same end |
| `LogPattern.ScanPrint` | dag/logger.cpp:217-286 | reading any written list of normal elements and tail gives it back |
| `LogPattern.PrintScan` | dag/logger.cpp:217-286 | every pattern reads as a normal list and tail, and writing those gives the pattern back |
| `LogPattern.ItemsAre` | dag/logger.cpp:288-325 | the items of every pattern up to its first unknown directive: text is itself, each of m p c r f a l t b n N T its own field, all dates have the formats of the pattern one behind the other, or %Y-%m-%d %H:%M:%S if there are none; without an error these are all |
| `LogPattern.RoundTripIff` | dag/logger.cpp:217-330 | parsing a printed normal list: an unknown directive is an error; otherwise the items are those meant (each text, field and date format its own, the default for none), without error, exactly when the dates' formats do not run together |
| `LogPattern.SingleDateRoundTrip` | dag/logger.cpp:217-330 | with at most one date and known directives the same items come back with no error |
| `LogPattern.FormatsRunTogether` | dag/logger.cpp:262-277 | the pattern %d{a}%d{b} gives both dates the format ab |
| `LogPattern.FailsIff` | dag/logger.cpp:263-330 | for every pattern: a read beyond the end exactly if it ends in a bare %d; an error exactly for an unclosed %d{ or a directive that is not known |
| `LogPattern.BareDateReadsBeyond` | dag/logger.cpp:263-272 | the pattern %d is read beyond its end |
| `LogFormatters.LogFormatter.Split` | dag/logger.cpp:217-286 | the flag-driven loop produces the pieces of the pattern, the date formats run together, and the right one of three ends |
| `LogFormatters.LogFormatter.Init` | dag/logger.cpp:217-330 | items and error flag are what the pattern parses to; false exactly when the code reads beyond the pattern |

## Left out

- ByteArrays.ByteArray.Clear: does not model freeing the dropped nodes.
- IOEvents.DelKeepsInv: assumes that epoll_ctl succeeds; `DelKeepsInvIff` says what happens otherwise, and runs contain accepted delEvent calls only.
- TimerRuns.CallbackIff: a run ends where a deadline has been changed inside the set, which std::set leaves undefined.
- Shutdown.ReachableInv: is about a stopping() that reads everything at once, which the code does not; `LeavesNothingIff` is about the code.
- Shutdown.NothingLeftBehind: is about a stopping() that reads everything at once, which the code does not; `LeavesNothingIff` is about the code.
- TimerManagers.TimerManager.ResetTimer: is the call with nobody in between; the steps of TimerRuns let everybody in.
- TimerManagers.TimerManager.ListExpired: requires the condition of `LoopEndsIff`, without which the code does not return.
- Tickle.StepKeepsInv: as for Tickle.SleeperIsTickled, a reset writes its timer's deadline only while the timer is out of the set.
- Tickle.SleeperIsTickled: runs with a deadline changed inside the set, as in `DeadlineChangedInSet`, are excluded, since std::set leaves them undefined; the end of a sleep is counted from the clock reading of getNextTimer, so the delay between it and epoll_wait is on top; the pipe never fills up.
- HookedIo.TimeoutIsOwn: one descriptor and event; the early returns of do_io that pass the call straight through are not modelled.
- A node's block of memory is a sequence field of the node, replaced as a whole by each copy; aliasing of caller buffers with node memory is not captured.
- `ceil` in floating point is the integer ceiling, and the truncation of offsets to `int` in writeToFile is left out; both agree below 2 to the 31.
- writeFloat and writeDouble are their bit patterns; fixed widths are proved for every width, not only 1, 2, 4 and 8.
- writeStringWithoutLength, toHexString, isLittleEndian and the buffer-pointer overloads of Stream: easy members.
- That a wake-up for a new queue entry is never lost is not claimed: a push between the scan and the increment of the idle count sends no tickle.
- Resizing of the descriptor table by concurrent addEvent calls: addEvent is one step.
- Context switching, stacks and threads are reduced to "context saved" and "stack live on worker w"; the start handshake with its semaphore is left out.
- Sockets, addresses, the TCP server, the descriptor manager and the hook wrappers around do_io: plumbing of system calls.
- Log events, appenders, time formatting, spin locks and singletons: easy members or foreign calls.
