# NitroCoro: a verified model

A Dafny model of the protocols inside NitroCoro, a C++20 coroutine runtime with HTTP, WebSocket
and PostgreSQL layers, and proofs of what they keep over whole runs. `dafny verify
dfyconfig.toml` checks everything.

**Runtime core.** `MpscQueue`, `Mutex`, `Future` (with the lock-free waiter list), `Cancel`,
`Scheduler` and `Channel` are small-step transition systems: one atomic operation, lock
operation or system call per step, any number of threads or coroutines, an inductive invariant,
and theorems about every state of every run. Atomics are sequentially consistent. `MpscQueue`
works on a heap of nodes that are deleted and whose addresses come back; it refines
`TicketQueue`, which `Scheduler` then builds on. `IntrusiveList` holds the list facts that
`Mutex` and `Future` share. `Writers` has the write side of `Channel` with more than one writer.

**HTTP/1.1.** `Wire` has the byte stream, which delivers as many bytes per read as it pleases,
and `StringBuffer`. `BodyReader` and `BodyWriter` are the body readers and writers; `ChunkText`
says what the text of a chunked body means; `HttpParser` parses heads line by line; `HttpHead`
lays heads out and proves they are read back; `HttpText` says what the text of a head means;
`HttpServer` is the keep-alive loop; `HttpPipeline` runs it on pipelined requests;
`HttpOutgoing` chooses framings and writes messages; `HttpExchange` puts responses one behind
the other on a connection; `HttpOrder` keeps pipelined responses in order; `HttpRouter` is the
segment tree, and `RouteText` says what the text of a route means. Each reader is a class whose
methods are proved against a function that decodes the whole byte string at once, so the result
does not depend on how reads cut it.

**Resources and codecs.** `Pool`, `Dns` and `FileCache` are the PostgreSQL pool, the resolver
with its cache, and the static-file cache; `WebSocket`, `Base64` with `Base64Text`, and
`UrlEncode` are the framing and the text codecs. `Numbers` prints and reads numbers as
`std::to_string`, `%zx`, `std::stoul` and `std::stoi` do, with `NumberText` for any text;
`Prelude` has options, results and bytes.

Clocks, reads, writes, `getaddrinfo`, handlers and the allocator are nondeterministic: a
parameter of a step, or a choice inside a method. History fields of a state (such as `served` or
`answers`) record what happened and are read by theorems only.

Some properties one would expect do not hold of the code. Each has a lemma with an input or a
run that shows it and a theorem that says exactly when it does hold:

- A timer whose distance in milliseconds is, modulo 2^32, 2^31 or more makes the cast of the
  timeout negative, and the loop sleeps without one (`Scheduler.FarTimerSleepsForever`,
  `Scheduler.SleepsNoLongerThanFirstTimer`).
- A set call closes the waiter list before it stores; an awaiter that takes the fast path in
  between reads nothing (`Future.FastPathCanMissResult`, `Future.FastPathSeesResultIff`).
- `unregister` only sets the callback's flag; a thread that set it first may call the function
  after `unregister` has returned on another thread, which for a callback without a scheduler
  includes the pattern documented as always safe (`Cancel.UnregisterCanBeOvertaken`,
  `Cancel.OvertakenIff`).
- A writer that suspends on a channel while another one is stored takes its place, and the
  other is never resumed (`Writers.SecondWriterLosesFirst`, `Writers.LostIff`).
- A parameter name used twice in a registered pattern can erase a binding of the pattern that
  answers (`HttpRouter.RepeatedNameLosesBinding`, `HttpRouter.BindingsExactIff`).
- `headersSent_` is set before the wait for the previous response, so a handler that catches
  the exception of that wait and goes on writes past the queue
  (`HttpOrder.RetryCanSplitResponse`, `HttpOrder.OrderIff`, `HttpOrder.BytesInTurnIff`).
- 100 Continue is written past the response queue and can land inside a response
  (`HttpOrder.InterimCanSplitResponse`, `HttpOrder.InterimSplitsIff`).
- After a trailer of too many lines the chunked reader is back where it expects a chunk size;
  a handler that catches the failure and reads on is given what follows as the body, and the
  server serves a request where RFC 7230 sees none (`HttpPipeline.OverrunIsServed`,
  `HttpServer.PatienceMattersIff`).
- `receive` takes a Pong or a reserved opcode for data, and one with FIN for the end of the
  message (`WebSocket.PongCutsMessage`, `WebSocket.ReceiveIsRightIff`).
- The length of a fragment is added to what there is of the message in 64 bits; where the sum
  wraps around, `receive` resizes the payload to less than it holds and stores the next byte
  outside (`WebSocket.WrapStoresOutside`, `WebSocket.StoresInsideIff`).
- A response streamed in HTTP/1.0 ends with the connection, but the server closes by the
  request's keep-alive only, so the next response becomes part of the body
  (`HttpExchange.NextIsSwallowed`, `HttpExchange.RecoveredIff`).
- A cached file is written from the cache's own node across suspensions; a put or an
  invalidation meanwhile takes the node out (`FileCache.PutRemovesNodeInUse`,
  `FileCache.InUseStaysIff`).
- Two questions for any family share a cache key if a host name or a service contains a bar,
  and one is answered with the other's addresses (`Dns.SharedKeyIsServed`, `Dns.SharesKeyIff`).
- Chunk-size lines of 63 or 64 bytes are accepted or refused depending on how reads fall, and
  over-long header and trailer lines likewise (`BodyReader.SizeLineAcceptedIff`,
  `Wire.AcceptedAlwaysIff`, `Wire.AcceptedSometimesIff`).

Where code and documentation differ the model follows the code. `HttpRouter.h` limits matching
to 32 path segments; the code limits the static and parameter segments of the pattern, so a
wildcard may capture any number. `HttpRouter.h` describes a wildcard as taking remaining
segments; at the end of a path a wildcard child also wins over the node's own entry.

## Model

| member | source | states |
|---|---|---|
| MpscQueue.StepRefines | include/nitrocoro/core/MpscQueue.h:34-55 | every atomic step of push or pop, on a heap whose freed addresses may be reused, keeps the invariant and is a step, or no step, of a plain queue of tickets |
| MpscQueue.RunRefines | include/nitrocoro/core/MpscQueue.h:34-55 | every interleaving of any number of two-step pushes with one consumer is a run of that plain queue |
| MpscQueue.PoppedIsPrefix | include/nitrocoro/core/MpscQueue.h:34-55 | at every point of every run the popped values are a prefix of the tail-exchange order, and no deleted node was ever read or written |
| MpscQueue.HalfPushedNodeIsLive | include/nitrocoro/core/MpscQueue.h:34-55 | the predecessor that a producer between exchange and link store will write to is not deleted, and is nobody else's predecessor |
| MpscQueue.NothingToPop | include/nitrocoro/core/MpscQueue.h:41-61 | pop and empty find nothing exactly if everything pushed was popped, or the producer of the oldest value is between its two steps |
| MpscQueue.PopTakesOldest | include/nitrocoro/core/MpscQueue.h:41-55 | in every run pop, if nothing comes in between, returns the oldest value once its push is complete |
| MpscQueue.PushAppends | include/nitrocoro/core/MpscQueue.h:34-39 | in every run push, if nothing comes in between, appends its value, ready to be popped |
| MpscQueue.NoNodeLeaks | include/nitrocoro/core/MpscQueue.h:34-55 | in every run the nodes allocated are one for the stub, one for each value not popped and one for each push that has not exchanged the tail yet |
| Mutex.StepKeepsInv | include/nitrocoro/core/Mutex.h:47-187 | every atomic step of lock, try_lock, unlock and the list reversal keeps the invariant that ties state_, waiters_, the links and all program counters to one queue |
| Mutex.MutualExclusion | include/nitrocoro/core/Mutex.h:47-109 | in every run at most one coroutine owns the lock, it is unlocked exactly if none does, and neither an assertion in unlock fails nor a dead awaiter is touched |
| Mutex.ServedInOrder | include/nitrocoro/core/Mutex.h:68-187 | in every run those served are a prefix of those that arrived, the rest are exactly the suspended coroutines, once each, and nobody waits for a lock that is free |
| Mutex.NoOvertaking | include/nitrocoro/core/Mutex.h:47-54 | try_lock and the CAS in lock succeed only when nobody is waiting |
| Mutex.TryLockTakesFreeLock | include/nitrocoro/core/Mutex.h:47-54 | in every run try_lock makes its caller the owner if nobody holds the lock, and otherwise changes nothing |
| Mutex.LockTakesOrQueues | include/nitrocoro/core/Mutex.h:121-187 | in every run lock, if nothing comes in between, takes a lock that nobody holds, and otherwise suspends its caller at the end of the queue |
| Mutex.UnlockServesNext | include/nitrocoro/core/Mutex.h:68-109 | in every run unlock, from any point of it and if nothing comes in between, ends, and has made the longest waiting coroutine the owner, or freed the lock if nobody waits |
| Scheduler.NextTimeoutMs | src/Scheduler.cc:176-194 | the timeout is the whole milliseconds to the first timer, rounded down, zero once it is due, and ten seconds if there is none |
| Scheduler.CastToInt | src/Scheduler.cc:139-156 | the narrowing of that timeout to int keeps the low 32 bits |
| Scheduler.StepKeepsInv | src/Scheduler.cc:65-209 | every step of the loop and of the threads that queue tasks or timers keeps the invariant over both queues, the eventfd and the timer heap |
| Scheduler.NoLostWakeup | src/Scheduler.cc:65-80 | whenever the loop is blocked with the eventfd at zero, every queued task and timer is at or behind a push whose thread has still to write the eventfd |
| Scheduler.UnfinishedPushWakes | src/Scheduler.cc:113-129 | such a thread raises the eventfd with its own next one or two steps |
| Scheduler.SleepsNoLongerThanFirstTimer | src/Scheduler.cc:139-194 | a blocked loop gets up by the first timer it knows exactly if the distance in milliseconds, modulo 2^32, is below 2^31; otherwise it has no timeout at all |
| Scheduler.FarTimerSleepsForever | src/Scheduler.cc:139-156 | for every timer that does not fit, a run at whose end the loop waits for it without a timeout, with the eventfd at zero and no thread about to write it |
| Scheduler.FirstFarTimer | src/Scheduler.cc:139-156 | timers nearer than 2^31 ms always fit, one that far does not, and one 2^32 ms away gives a timeout of zero |
| Scheduler.TimersFireOnceAndNotEarly | src/Scheduler.cc:196-209 | in every run each timer fires as often as it was collected and no longer waits, and never before its time |
| Scheduler.FiresExactlyWhatIsDue | src/Scheduler.cc:196-209 | in every run one call of process_timers queues exactly the timers due at the time it read, each as often as it was in the heap and earliest first, and leaves exactly the others |
| Scheduler.NothingIsLost | src/Scheduler.cc:113-129 | in every run every task and timer pushed, by any thread, the loop itself or a firing timer, is queued once and in order, and tasks are executed in exactly that order |
| Scheduler.RoundRunsAll | src/Scheduler.cc:65-80 | in every run a loop back from epoll_wait, if nothing comes in between and no push is half done, fires every timer that is due, executes everything queued, and is back where it collects timers |
| Future.StepKeepsInv | include/nitrocoro/core/Future.h:37-94 | every atomic step of racing awaiters and set calls keeps the invariant over the list, its links, the result and all program counters |
| Future.OneSetSucceeds | include/nitrocoro/core/Future.h:258-278 | in every run at most one set call gets past closing the list; the others throw, and only if one did |
| Future.ResumedExactlyOnce | include/nitrocoro/core/Future.h:37-48 | in every run each awaiter whose push succeeded is resumed at most once, newest first, and exactly once when the winning set call has returned; no node is touched after it was scheduled |
| Future.ParkedSeesResult | include/nitrocoro/core/Future.h:71-94 | an awaiter that suspended is resumed only after the result is stored, and reads that result |
| Future.FastPathSeesResultIff | include/nitrocoro/core/Future.h:71-94 | an awaiter that did not suspend reads a result if and only if no set call is between closing the list and storing |
| Future.FastPathCanMissResult | include/nitrocoro/core/Future.h:258-267 | a concrete run in which it reads nothing |
| Future.UninterruptedSetsAlwaysSeen | include/nitrocoro/core/Future.h:258-278 | in runs where nothing comes between the close and the store, every awaiter reads the result |
| Future.ResultIsWinners | include/nitrocoro/core/Future.h:258-278 | in every run the result is what the one call that succeeded was given |
| Future.SetResumesAll | include/nitrocoro/core/Future.h:37-94 | in every run a set call on a promise that is not set, if nothing comes in between, ends with its own outcome stored and everyone who was suspended scheduled |
| Future.ParkKeepsInv | include/nitrocoro/core/LockFreeList.h:27-37 | the compare-and-swap of a push that succeeds puts the node on top of a list that otherwise reads the same |
| Future.CloseListKeepsInv | include/nitrocoro/core/LockFreeList.h:39-47 | the exchange of a close takes the whole list and leaves the closed mark |
| Cancel.StepKeepsInv | include/nitrocoro/core/CancelToken.h:53-171 | every step of addCallback, cancel and unregister, from any threads, with the flag of a callback and its call as two steps of the thread that executes it, keeps the invariant |
| Cancel.RunsAtMostOnce | include/nitrocoro/core/CancelToken.h:53-108 | in every run no callback runs twice, and none before a cancel |
| Cancel.RunsExactlyOnce | include/nitrocoro/core/CancelToken.h:53-108 | once the winning cancel has returned and nothing it dispatched is left to be executed, every registered callback has run exactly once, except one whose flag unregister set first; a late one runs directly |
| Cancel.FiredInOrder | include/nitrocoro/core/CancelToken.h:53-86 | callbacks are dispatched in registration order |
| Cancel.StartsAfterUnregisterIff | include/nitrocoro/core/CancelToken.h:164-171 | in every run an unregistered callback still starts if and only if its thread had set the flag before and not called it yet |
| Cancel.UnregisterCanBeOvertaken | include/nitrocoro/core/CancelToken.h:68-73 | for every callback, call of cancel and other thread, a run in which that thread has unregistered the callback and it starts afterwards |
| Cancel.NeverAfterUnregister | include/nitrocoro/core/CancelToken.h:118-126 | unregistered on the only thread that calls of cancel would have it called on, the callback never starts afterwards |
| Cancel.OvertakenIff | include/nitrocoro/core/CancelToken.h:53-171 | for every set of callbacks and calls of cancel, unregistering on a thread can be overtaken if and only if some call of cancel would have the callback called on another thread |
| Channel.StepKeepsInv | include/nitrocoro/io/Channel.h:169-228 | every step of both operations, the event handler, cancel and an edge-triggered kernel keeps the invariant |
| Channel.SuspendedHasEventComing | include/nitrocoro/io/Channel.h:169-228 | in every run a suspended reader or writer that the kernel could serve has an undelivered event |
| Channel.ScheduledExactlyOnce | src/Channel.cc:47-122 | in every run a stored waiter is exactly a suspended coroutine, neither ready nor errored, and each suspension but the current one was scheduled once |
| Channel.CancelHitsItsOperation | src/Channel.cc:169-195 | an operation returns Canceled exactly if a cancel took its own waiter, and no cancel flag outlives its operation |
| Channel.ServedToTheEnd | include/nitrocoro/io/Channel.h:169-228 | in every run, whenever the kernel can serve a side and no coroutine has the thread, with units or with the end of the stream, its operation, idle, suspended or scheduled, returns with that if nothing comes in between, or returns Canceled if a cancel took its waiter |
| Channel.CancelReturns | src/Channel.cc:169-195 | in every run a cancel makes a suspended operation return Canceled, in two steps of its own |
| Channel.AgainSuspends | include/nitrocoro/io/Channel.h:194-228 | in every run a call that finds nothing suspends with the interest enabled, or on an errored channel goes on without waiting |
| Channel.UnitsConserved | include/nitrocoro/io/Channel.h:169-228 | in every run what the kernel had for a side is what its calls took and what is still there |
| Channel.ErroredIff | src/Channel.cc:47-66 | in every run the channel is errored exactly if an error event was delivered |
| Channel.DeliveredOnce | src/Channel.cc:47-89 | in every run an event that was delivered does not come again without the kernel or a change of interest |
| Channel.FlagsAre | src/Channel.cc:47-89 | in every run a side is ready exactly if the last word was an event and not EAGAIN, and at its end exactly if the kernel said so |
| Channel.EventsNeedInterest | src/Channel.cc:124-167 | in every run there is an event for a side only while the channel is interested in it |
| Channel.ErrorIsDelivered | src/Channel.cc:47-66 | in every run an error, once delivered, leaves no operation waiting |
| Channel.PartlyGoesOn | include/nitrocoro/io/Channel.h:183-228 | in every run a partial write goes on at once, for the rest |
| Writers.LostIff | src/Channel.cc:107-122 | with several writers on one channel, in every run some writer is suspended with nobody holding its handle if and only if one had to wait, not writable and not errored, while another was stored |
| Writers.LostForever | src/Channel.cc:77-87 | such a writer stays suspended for the rest of the run, whatever events and cancels come |
| Writers.AloneNeverLost | src/TcpConnection.cc:136-150 | a single writer is never lost |
| Writers.SecondWriterLosesFirst | src/TcpConnection.cc:136-150 | a run in which a second write loses the first |
| Writers.StoredIsServed | src/Channel.cc:77-87 | in every run the stored writer is scheduled by the next event or cancel, and returns |
| Writers.BeginWaitsIff | src/Channel.cc:107-122 | in every run who begins to write suspends exactly if the last word was EAGAIN and no error came |
| Writers.CancelOfNobody | src/Channel.cc:180-189 | a cancel that finds no writer stored is not kept for the next |
| Wire.StringBuffer.FindCrlf | include/nitrocoro/utils/StringBuffer.h:26-31 | finds the first CR LF among the unconsumed bytes, or none exactly if there is none (with Wire.FindFromIsFirst) |
| Wire.FindFromIsFirst | include/nitrocoro/utils/StringBuffer.h:26-31 | the position found holds CR LF and no earlier one does |
| Wire.StringBuffer.Consume | include/nitrocoro/utils/StringBuffer.h:34-38 | drops exactly the first n unconsumed bytes |
| Wire.StringBuffer.PrepareWrite | include/nitrocoro/utils/StringBuffer.h:41-59 | compacting or growing leaves the unconsumed bytes as they are and makes room for len more |
| Wire.StringBuffer.CommitWrite | include/nitrocoro/utils/StringBuffer.h:68 | appends exactly the n bytes stored at the write position |
| Wire.StringBuffer.Extract | include/nitrocoro/utils/StringBuffer.h:82-102 | returns the unconsumed bytes on both paths and leaves the buffer empty |
| Wire.StringBuffer.Fill | extensions/http/src/HttpServer.cc:57-65 | prepareWrite, read, commitWrite move bytes from the stream to the buffer without losing or reordering any |
| Wire.FindLine | extensions/http/src/HttpServer.cc:46-76 | the loop computes LineLoop for the read sizes that came, and consumes nothing |
| Wire.AcceptedAlwaysIff | extensions/http/src/HttpServer.cc:46-76 | a line is accepted under every sequence of read sizes if and only if it fits the limit together with its CR LF, or is buffered already |
| Wire.AcceptedSometimesIff | extensions/http/src/HttpServer.cc:46-76 | it is accepted under some sequence if and only if one read begun below the limit can reach its end |
| Wire.TakeLine | extensions/http/src/HttpServer.cc:46-76 | however reads split the bytes, the line taken is the one before the first CR LF of buffer and stream together, and what is left is what followed it; giving up means no line, or one longer than the limit less two |
| BodyReader.SizeLineAcceptedIff | extensions/http/src/body_reader/ChunkedReader.cc:15-37 | a chunk-size line is accepted under every sequence of read sizes if and only if it has at most 62 bytes, and under some if and only if it has at most 64 |
| BodyReader.BodyReadingDecodes | extensions/http/src/body_reader/ChunkedReader.cc:11-139 | what a reader comes to without a failure is the body section 3.3.3 of RFC 7230 gives, and it meets none exactly if there is such a body |
| BodyReader.OverrunReadsOn | extensions/http/src/body_reader/ChunkedReader.cc:66-92 | a last chunk with 129 trailer lines is no body, but a reader asked again after the failure takes whatever follows for chunks |
| BodyReader.Reader.constructor | extensions/http/src/BodyReader.cc:23-44 | each transfer mode gets a reader that owes exactly what its mode says of the bytes |
| BodyReader.Reader.ParseChunkSize | extensions/http/src/body_reader/ChunkedReader.cc:11-51 | takes a size line, and after a zero one the trailer, off the connection without touching what is left of the body; where it throws, reading on comes to the same body, or no read will ever succeed again |
| BodyReader.Reader.ReadChunkSize | extensions/http/src/body_reader/ChunkedReader.cc:11-36 | the size read is the hexadecimal number before the first CR LF; where it is refused nothing is consumed |
| BodyReader.Reader.SkipTwo | extensions/http/src/body_reader/ChunkedReader.cc:53-64 | drops any two bytes, failing exactly if fewer are left |
| BodyReader.Reader.SkipTrailerLines | extensions/http/src/body_reader/ChunkedReader.cc:66-92 | skips lines up to the empty one; of its three failures, too many lines leaves what followed them, a cut leaves an unfinished line, and an over-long line jams the buffer |
| BodyReader.Reader.ReadChunked | extensions/http/src/body_reader/ChunkedReader.cc:94-139 | what it returns followed by what it then owes is what it owed before; it returns nothing exactly when the body is complete; it throws only where the body cannot be read, and says what it then owes |
| BodyReader.Reader.ReadLength | extensions/http/src/body_reader/ContentLengthReader.cc:11-33 | the same for a body of known length |
| BodyReader.Reader.ReadUntilClose | extensions/http/src/body_reader/UntilCloseReader.cc:11-31 | the same for a body that ends with the connection; a read of no bytes takes nothing, and closes exactly on an empty buffer |
| BodyReader.Reader.Read | extensions/http/src/BodyReader.cc:46-52 | the same for any reader, after failures too; nothing after drain |
| BodyReader.Reader.Drain | extensions/http/src/BodyReader.cc:54-65 | leaves buffer and stream exactly at the byte after the body, or fails where the body cannot be read |
| BodyReader.Reader.ReadToEnd | extensions/http/include/nitrocoro/http/BodyReader.h:47-77 | appends exactly the body, all of it, and stops at its last byte |
| BodyReader.DataPart | extensions/http/src/body_reader/ChunkedReader.cc:105-139 | taking part of a chunk leaves what comes of the rest unchanged |
| ChunkText.ChunkedIs | extensions/http/src/body_reader/ChunkedReader.cc:11-92 | any chunks with sizes in digits of either case, extensions, a last chunk and a trailer of up to 128 lines are decoded to the data of the chunks and what follows |
| ChunkText.OneChunk | extensions/http/src/body_reader/ChunkedReader.cc:11-51 | a chunk whose size line has at most 64 bytes is taken off the front, and one with a longer line refused |
| ChunkText.TrailerSkipped | extensions/http/src/body_reader/ChunkedReader.cc:66-92 | a trailer of up to 128 lines is skipped, however the reads fall if no line has more than 8192 bytes |
| NumberText.StoulReads | extensions/http/src/body_reader/ChunkedReader.cc:35 | std::stoul on blanks, a sign, perhaps 0x, digits and anything else: the value of the digits, negated modulo 2^64 after a minus, an exception from 2^64 on |
| NumberText.StoiReads | extensions/http/src/HttpParser.cc:437-483 | std::stoi in the same way, with an exception outside 32 bits |
| NumberText.ValueIsPositional | extensions/http/src/body_reader/ChunkedReader.cc:35 | the value of digits is positional |
| BodyWriter.Writer.Write | extensions/http/src/body_writer/ChunkedWriter.cc:11-23 | one chunk per non-empty write, nothing for an empty one |
| BodyWriter.Writer.End | extensions/http/src/body_writer/ChunkedWriter.cc:25-28 | the terminating chunk in chunked mode only |
| BodyWriter.DecodeChunk | extensions/http/src/body_writer/ChunkedWriter.cc:11-23 | a written chunk in front of any bytes decodes to its data in front of what they decode to |
| BodyWriter.ChunkedRoundTrip | extensions/http/src/body_writer/ChunkedWriter.cc:11-28 | for any writes below 2^52 bytes each, decoding gives their concatenation and leaves exactly the bytes after the terminator |
| BodyWriter.BodyRoundTrip | extensions/http/src/BodyReader.cc:23-44 | in each mode the reader undoes the writer and leaves what follows |
| BodyWriter.ReadPieces | extensions/http/src/BodyReader.cc:46-52 | reading into buffers of any positive sizes yields the body whole and the rest untouched |
| BodyWriter.Transfer | extensions/http/src/body_reader/ChunkedReader.cc:11-139 | writer and reader composed: whatever the writes, the network's cuts and the buffer sizes, the concatenation arrives and the tail stays |
| HttpParser.Parser.ParseLine | extensions/http/src/HttpParser.cc:109-128 | the parser object is the fold of LineStep over its lines, for requests and responses; what that fold comes to is said by HttpText.HeadMeans |
| HttpParser.Parser.ParseHeader | extensions/http/src/HttpParser.cc:258-278 | first value wins, cookies apart; a second, different Content-Length on a request is an error |
| HttpParser.Parser.ProcessTransferMode | extensions/http/src/HttpParser.cc:135-186 | the branches compute the framing function of section 3.3.3 of RFC 7230, with its errors |
| HttpParser.ParseJoined | extensions/http/src/HttpServer.cc:46-83 | a head laid out in lines is parsed to its last state whatever bytes follow, and leaves exactly those |
| HttpHead.ParseFieldLine | extensions/http/src/HttpParser.cc:76-96 | a laid-out header line parses to its lower-case name and its value |
| HttpHead.RequestTextRoundTrip | extensions/http/src/HttpParser.cc:204-256 | a laid-out request line parses to its method, target and version |
| HttpHead.StatusTextRoundTrip | extensions/http/src/HttpParser.cc:437-483 | a laid-out status line with a code from 100 to 999 parses to its parts |
| HttpHead.HeadRoundTrip | extensions/http/src/HttpParser.cc:258-278 | any well-formed head, in any number of lines up to the limit, is parsed to its start line, header map and cookies, and no byte after it is touched |
| HttpText.HeadMeans | extensions/http/src/HttpParser.cc:135-202 | for any well-formed fields, in any case and with repetitions, of a request or a response: two different lengths in a request are an error; otherwise the head comes to the framing and to the keep-alive that the text of the fields says, each told in terms of the fields alone |
| HttpText.HeadersAre | extensions/http/src/HttpParser.cc:258-278 | the header map has under each name the value of the first field of that name, in whatever case |
| HttpText.SameTextIff | extensions/http/src/HttpParser.cc:258-278 | lower-casing makes two names equal exactly if they differ in the case of letters only |
| HttpText.ContainsIff | extensions/http/src/HttpParser.cc:188-202 | the search for a word in a value finds it exactly if it stands somewhere in it |
| HttpText.NoConflictIff | extensions/http/src/HttpParser.cc:258-278 | the parser meets two different lengths exactly if two of the fields give them |
| HttpText.TooManyFields | extensions/http/src/HttpServer.cc:41-84 | a head of more than 128 lines is refused |
| HttpServer.ParseNext | extensions/http/src/HttpServer.cc:41-84 | for every read split the result and the bytes left are those of parsing the whole byte string; errors too, if no line is over-long |
| HttpServer.RunHandler | extensions/http/src/HttpServer.cc:269-290 | a handler that makes any reads, and may catch the failed ones and read on, sees a prefix of the body, the whole of it if it read to the end; one that reads on long enough gets every body there is |
| HttpServer.ServeOne | extensions/http/src/HttpServer.cc:169-300 | one turn takes exactly one message with its body off the connection, or ends for the reason the bytes give |
| HttpServer.HandleConnection | extensions/http/src/HttpServer.cc:148-301 | for every byte stream, read split and handler behaviour the requests served are those the bytes say, in order, each handler seeing only its own body; with lines short enough, all of them and the same ending, unless a handler leaves it at a body that takes more than one try; handlers that read on serve those too |
| HttpServer.PatienceMattersIff | extensions/http/src/HttpServer.cc:269-300 | what the bytes say to handlers that read on after failures is what RFC 7230 says if and only if no body takes a second try |
| HttpServer.StrictConversation | extensions/http/src/HttpServer.cc:169-300 | what RFC 7230 says is that conversation up to the first such body |
| HttpPipeline.OneRequest | extensions/http/src/HttpServer.cc:169-300 | a well-formed request in front of any bytes is that request, then what those bytes say |
| HttpPipeline.PipelineRoundTrip | extensions/http/src/HttpServer.cc:169-300 | any list of well-formed persistent requests back to back is parsed to exactly that list with exactly those bodies, then what follows |
| HttpPipeline.ServePipeline | extensions/http/src/HttpServer.cc:148-301 | the server run on such bytes serves exactly those requests, up to the one that closes, under any read split and handler |
| HttpPipeline.OverrunIsServed | extensions/http/src/body_reader/ChunkedReader.cc:66-92 | a family of connections on which a request without a body is served to a handler that reads on, with chunks that follow its trailer as the body |
| HttpOutgoing.Outgoing.DecideTransferMode | extensions/http/src/HttpOutgoingStream.cc:57-103 | the headers it sets make the receiver's framing function give the very mode of the writer it creates |
| HttpOutgoing.Outgoing.BuildHeaders | extensions/http/src/HttpOutgoingStream.cc:105-181 | its output and the empty line are the laid-out head for the map, cookies, date and Connection lines |
| HttpOutgoing.FramingSurvives | extensions/http/src/HttpOutgoingStream.cc:105-181 | the lines buildHeaders adds by itself never change the framing |
| HttpOutgoing.AllFieldsGood | extensions/http/src/HttpOutgoingStream.cc:105-181 | they are well formed and repeat no header of the map |
| HttpOutgoing.FramedByLength | extensions/http/src/HttpParser.cc:155-186 | the printed Content-Length is read back as that length |
| HttpOutgoing.Outgoing.WriteHeaders | extensions/http/src/HttpOutgoingStream.cc:269-284 | puts out the lines of buildHeaders, as a head that tells the given framing |
| HttpOutgoing.Outgoing.Write | extensions/http/src/HttpOutgoingStream.cc:183-199 | keeps the wire equal to the head and the pieces so far, framed as told; for HEAD writes nothing |
| HttpOutgoing.Outgoing.End | extensions/http/src/HttpOutgoingStream.cc:207-221 | finishes a message whose head tells its framing and length; for HEAD a head with the length of the body left out |
| HttpOutgoing.Outgoing.SendMerged | extensions/http/src/HttpOutgoingStream.cc:246-259 | one write puts out the lines of buildHeaders and the body, as a finished message |
| HttpOutgoing.MergedIsApart | extensions/http/src/HttpOutgoingStream.cc:246-267 | from equal states the one-write path and the path of a write each put out the same bytes |
| HttpOutgoing.CloseIsTold | extensions/http/src/HttpOutgoingStream.cc:166-179 | the receiver of a response reads from its head whether the connection is kept open as shouldClose says, in both versions, or as a Connection header of the application says |
| HttpOutgoing.DateIsTold | extensions/http/src/HttpOutgoingStream.cc:155-167 | the receiver of a response finds the Date of the application, or else the one added |
| HttpOutgoing.CookiesAreTold | extensions/http/src/HttpOutgoingStream.cc:122-153 | the receiver finds exactly the cookies given, in order |
| HttpOutgoing.Outgoing.EndWith | extensions/http/src/HttpOutgoingStream.cc:223-267 | finishes a message on the merged, the two-write and the streaming path alike |
| HttpOutgoing.Send | extensions/http/src/HttpOutgoingStream.cc:183-267 | for any writes and final end the head tells the mode the body is in, the length is right, and the pieces concatenate to what was written |
| HttpOutgoing.ReceiverRecovers | extensions/http/src/HttpParser.cc:369-419 | a receiver parses a finished message to the mode it was written in and decodes its body, leaving what follows; if the mode is the end of the connection, what follows is taken for more of the body |
| HttpOutgoing.ResponseRecovered | extensions/http/src/HttpParser.cc:369-419 | the same for every finished response with a status from 100 to 999 |
| HttpOutgoing.SendResponse | extensions/http/src/HttpOutgoingStream.cc:183-267 | any writes and final end by a handler, composed with its peer: whatever follows on the connection, the peer finds that status and framing, the concatenation of what was written with what follows left over or, for a body that ends with the connection, added to it, and whether the connection is kept open |
| HttpExchange.AnswerAll | extensions/http/src/HttpServer.cc:169-300 | the loop sends the responses of its turns one behind the other, each as SendResponse says, and closes exactly after a request that does not keep the connection open, or an exception before or behind a response |
| HttpExchange.RecoveredIff | extensions/http/src/HttpOutgoingStream.cc:88-97 | in any such exchange a response is recovered, known to be whole and with nothing of the next in it, if and only if it is not streamed in HTTP/1.0, or its request does not keep the connection open, or an exception ends its turn, or the next handler throws before sending |
| HttpExchange.NextIsSwallowed | extensions/http/src/HttpServer.cc:185-199 | for any two responses of which the first is streamed in HTTP/1.0 on a connection kept open, the peer takes the bytes of the second for the end of the first body |
| HttpOrder.StepKeepsInv | extensions/http/src/HttpOutgoingStream.cc:183-284 | every step of any number of concurrent responses, byte by byte, keeps the invariant, unless it is a call on a response whose gate threw |
| HttpOrder.ResponsesInOrder | extensions/http/src/HttpServer.cc:170-199 | in every run without such a call the wire, interim responses aside, is the first response, then the second, and so on; a response has bytes out only if all before it are finished, and a finished one is whole |
| HttpOrder.OrderIff | extensions/http/src/HttpOutgoingStream.cc:269-284 | throughout a run responses start in order and a dropped one stops the rest, if and only if no response is called again after its gate threw |
| HttpOrder.RetryCanSplitResponse | extensions/http/src/HttpOutgoingStream.cc:272-277 | a run in which such a call puts bytes of a later response inside an earlier one |
| HttpOrder.BytesInTurnIff | extensions/http/src/HttpOutgoingStream.cc:183-284 | in every run no byte of a later response stands before one of an earlier response on the wire if and only if no response puts out a byte after a later one did; the condition a handler can check is that of OrderIff |
| HttpOrder.InTurnIsWhole | extensions/http/src/HttpOutgoingStream.cc:183-284 | then the wire is the first response, then the second, and so on, in runs with such calls too |
| HttpOrder.LateNeedsRetry | extensions/http/src/HttpOutgoingStream.cc:269-284 | otherwise a response after the earlier one, up to the later one, was called again after its gate threw |
| HttpOrder.DroppedStopsTheRest | extensions/http/src/HttpServer.cc:170-199 | in a run without such a call a response dropped without end keeps every later one off the wire |
| HttpOrder.InterimCanSplitResponse | extensions/http/src/HttpServer.cc:266 | a run in which 100 Continue lands between two bytes of another response |
| HttpOrder.InterimSplitsIff | extensions/http/src/HttpServer.cc:266 | in every run an interim response comes to stand between two bytes of one response if and only if some response had bytes out when it was written and put out more afterwards |
| HttpRouter.NextSegment | extensions/http/src/HttpRouter.cc:13-23 | the segment and the rest of the path from a position |
| HttpRouter.LookupInsert | extensions/http/src/HttpRouter.cc:44-87 | inserting under a pattern changes what exactly that pattern finds |
| HttpRouter.InsertKeepsSorted | extensions/http/src/HttpRouter.cc:44-87 | children stay in strictly increasing order of their names |
| HttpRouter.FindSound | extensions/http/src/HttpRouter.cc:92-142 | what the search returns is registered, matches the path and is no deeper than 32 |
| HttpRouter.FindFirst | extensions/http/src/HttpRouter.cc:92-142 | every other candidate comes later in the order static, parameter by name, wildcard by name, end |
| HttpRouter.SearchIs | extensions/http/src/HttpRouter.cc:92-142 | threading the bindings through failed branches finds the same entry |
| HttpRouter.SearchLeaves | extensions/http/src/HttpRouter.cc:92-142 | for any bindings it is given, the search removes exactly the names of the parameter branches it tried in vain, and adds exactly what was bound on the way to the answer and not erased afterwards |
| HttpRouter.MatchRadix | extensions/http/src/HttpRouter.cc:92-142 | the loops compute that search |
| HttpRouter.InsertHolds | extensions/http/src/HttpRouter.cc:153-175 | after any registrations the tree holds what a scan of them says |
| HttpRouter.SearchIsScan | extensions/http/src/HttpRouter.cc:92-142 | the tree search finds an entry if and only if some registered pattern of depth at most 32 matches, and then the first one |
| HttpRouter.BindingsExactIff | extensions/http/src/HttpRouter.cc:122-139 | for every tree and path the bindings are those of the pattern that answers if and only if no parameter branch tried in vain erased a name bound above it that the pattern does not bind again below |
| HttpRouter.BindingsAreExact | extensions/http/src/HttpRouter.cc:122-139 | where no pattern repeats a name they always are |
| HttpRouter.RepeatedNameLosesBinding | extensions/http/src/HttpRouter.cc:123-129 | a family of registrations and requests where a repeated name erases a binding of the pattern that answers |
| HttpRouter.IsParamOrWild | extensions/http/src/HttpRouter.cc:155-164 | a marker counts exactly at the start of the path or after a slash |
| HttpRouter.Router.AddRoute | extensions/http/src/HttpRouter.cc:153-175 | exact paths and patterns are kept apart, and the tree keeps agreeing with the registrations |
| HttpRouter.Router.FindRoute | extensions/http/src/HttpRouter.cc:177-221 | exact path first, then the first matching pattern with its method, and with its own bindings under that exact condition; not-found exactly if none matches |
| RouteText.TextIsPattern | extensions/http/src/HttpRouter.cc:44-87 | a registered text is parsed to one level for each of its segments: a parameter for one that starts with a colon, a wildcard for one that starts with a star, a static one otherwise |
| RouteText.BindIsText | extensions/http/src/HttpRouter.cc:92-142 | a request path matches that pattern if and only if it fits segment by segment, and binds each parameter to the segment in its place, a wildcard to the rest |
| RouteText.AddMethodsAre | extensions/http/src/HttpRouter.cc:25-31 | each method added gets the handler, GET serves HEAD too unless HEAD has one, and the others keep theirs |
| RouteText.RegisterAndAsk | extensions/http/src/HttpRouter.cc:153-221 | a route registered by its text and then asked for with any path: the route, or one that comes before it, answers if and only if the path fits the text; with that handler, those segments as parameters, and for a method it lacks the methods it has |
| RouteText.RegisterExact | extensions/http/src/HttpRouter.cc:153-221 | a route without parameters, asked for in its own words, is answered by its handler |
| RouteText.BeforeIff | extensions/http/src/HttpRouter.cc:92-142 | one pattern comes before another if and only if it does at the first level where they differ: static, then parameter, then wildcard, then the end, parameters and wildcards by name |
| Pool.ConnectionPool.RunDispatch | extensions/pg/src/PoolState.cc:14-32 | drops cancelled waiters from the front and serves at most one live one |
| Pool.ConnectionPool.Perform | extensions/pg/src/PoolState.cc:14-100 | whatever callback comes next, the object keeps the invariant of every run |
| Pool.StepKeepsInv | extensions/pg/src/PoolState.cc:14-100 | every step keeps conservation, queue order, work conservation and one holder per connection |
| Pool.DispatchWorks | extensions/pg/src/PoolState.cc:14-32 | one waiter served per dispatch is enough: afterwards no live waiter is queued while a connection could be given |
| Pool.ConnectionsConserved | extensions/pg/src/PoolState.cc:14-100 | in every run totalCount is idle, connecting, leased and undetached, returning and detaching together, from 0 to maxSize, and no connection is in two places |
| Pool.LiveWaitersAreBlocked | extensions/pg/src/PoolState.cc:14-67 | in every run a waiter whose promise is unset is being connected for, or is queued with nothing idle and totalCount at maxSize |
| Pool.ServedInArrivalOrder | extensions/pg/src/PoolState.cc:14-67 | in every run waiters leave the queue in the order they came |
| Pool.SetOnce | extensions/pg/src/PoolState.cc:30-66 | in every run a promise once set keeps its outcome |
| Pool.GivenIsLeased | extensions/pg/src/PoolState.cc:14-32 | in every run a waiter that was given a connection has a lease of exactly that connection |
| Pool.NeverShared | extensions/pg/src/PoolState.cc:14-32 | in every run two waiters whose leases are both in use have different connections |
| Pool.SetByItsStep | extensions/pg/src/PoolState.cc:14-66 | in every run the step that sets a promise gives it the idle connection in front or the one just opened and leases that one to it, or fails it because its own attempt failed, or times it out because it was cancelled |
| Pool.Fate | extensions/pg/src/PoolState.cc:69-100 | in every run a connection that comes back is kept exactly if it is alive, and one that broke is kept nowhere |
| Pool.GoneForGood | extensions/pg/src/PoolState.cc:69-100 | a connection that is nowhere in the pool is never in it again |
| Dns.StepKeepsInv | src/DnsResolver.cc:79-230 | every critical section and every single delivery keeps the invariant over cache, queue, pending keys, tasks and promises |
| Dns.SingleFlight | src/DnsResolver.cc:203-228 | in every run a key is pending exactly while one resolution of it is outstanding, never two |
| Dns.PromisesKept | src/DnsResolver.cc:164-183 | in every run no promise is set twice, an unset one is held for its key, and a set one has addresses resolved for its own key |
| Dns.SetOnce | src/DnsResolver.cc:164-183 | in every run an outcome once given stays |
| Dns.PurgesAreExact | src/DnsResolver.cc:152-163 | in every run a purge leaves exactly the entries that expire later, each with its record |
| Dns.OutcomeHasCause | src/DnsResolver.cc:140-220 | in every run a promise with an outcome waited for a resolution of its key and got what getaddrinfo said then, those addresses or an error, or was answered at once with the latest answer for its key, which had not expired |
| Dns.CacheStory | src/DnsResolver.cc:140-150 | in every run what is cached for a key is the latest answer for it and expires ttl after that |
| Dns.PurgesEverySixteenth | src/DnsResolver.cc:152-163 | in every run the first answer and every sixteenth after it purges, and no other |
| Dns.Tables.Ask | src/DnsResolver.cc:203-220 | does to the tables what the Resolve step does; answers what the step gives the promise, and starts a task exactly where the step does |
| Dns.Tables.Store | src/DnsResolver.cc:140-150 | does to the tables what the Answer step does, and takes exactly the promises the step gives its task |
| Dns.Tables.Abandon | src/DnsResolver.cc:172-180 | the same for the Fail step |
| Dns.Tables.PurgeExpired | src/DnsResolver.cc:152-163 | the loop over the priority queue removes what the purge should, in cache and queue |
| Dns.CacheKeyInjective | src/DnsResolver.cc:45-48 | different questions have different keys if no host name contains a bar |
| Dns.CacheKeyCollides | src/DnsResolver.cc:45-48 | a family of pairs of questions that share a key |
| Dns.SharesKeyIff | src/DnsResolver.cc:69-77 | a question that one of the two overloads can ask shares its key with another such question if and only if it is for any family and its host or its service contains a bar |
| Dns.SharedKeyIsServed | src/DnsResolver.cc:203-220 | a run in which the promise of one question gets the addresses resolved for another with its key |
| WebSocket.FrameRoundTrip | extensions/websocket/src/WsConnection.cc:43-83 | every frame in each of the three length encodings, masked or not, is decoded to itself and leaves what follows |
| WebSocket.MaskedIs | extensions/websocket/src/WsConnection.cc:82-84 | a masked byte differs from the byte in exactly the one-bits of the byte of the key in its turn |
| WebSocket.FrameBytesSay | extensions/websocket/src/WsConnection.cc:50-72 | what the first bytes of any frame say, by position: FIN, opcode, and the payload length in its three encodings |
| WebSocket.ReceiveGot | extensions/websocket/src/WsConnection.cc:85-103 | what receive does with a frame, by the number of its opcode |
| WebSocket.MaskedExample | extensions/websocket/src/WsConnection.cc:43-84 | the masked text of section 5.7 of RFC 6455 is decoded to Hello |
| WebSocket.SentBytes | extensions/websocket/src/WsConnection.cc:109-138 | the bytes that sendFrame puts in front of a payload, by position |
| WebSocket.ReceiveUndoesSend | extensions/websocket/src/WsConnection.cc:140-144 | receive returns exactly what send wrote, for every payload length and both types |
| WebSocket.Reassembles | extensions/websocket/src/WsConnection.cc:43-105 | any fragmentation, masking and interleaved pings: the message arrives whole with its type, and the bytes written are a pong per ping with its payload, in order |
| WebSocket.ReceiveTakes | extensions/websocket/src/WsConnection.cc:43-105 | for any frames up to the end of a message, of any opcodes, receive does to the bytes what Take does to the list of frames |
| WebSocket.ReceiveIsRightIff | extensions/websocket/src/WsConnection.cc:43-105 | it delivers the data frames and nothing else, answers the pings and stops after the last frame, if and only if each frame that is neither data, Ping nor Close lacks FIN, and is empty and without effect on the type unless a Close ends it all |
| WebSocket.HarmlessIff | extensions/websocket/src/WsConnection.cc:85-103 | if only data frames are fragmented that means: if and only if every opcode is Continuation, Text, Binary, Ping or Close |
| WebSocket.StrayCutsShort | extensions/websocket/src/WsConnection.cc:85-103 | otherwise the first such frame with FIN ends receive, as text, with its payload at the end and the rest of the message unread |
| WebSocket.PongCutsMessage | extensions/websocket/src/WsConnection.cc:85-103 | any two-piece binary message with a Pong in between arrives as text, with the Pong and without the second piece |
| WebSocket.StoresInsideIff | extensions/websocket/src/WsConnection.cc:78-80 | every byte that receive stores lies inside the payload, resized modulo 2^64, if and only if at each frame after whose header a byte comes the bytes so far and the declared length are below 2^64 together |
| WebSocket.ReturnedIsInside | extensions/websocket/src/WsConnection.cc:78-80 | whatever receive returns was stored inside; only a connection that ends inside a frame can break it |
| WebSocket.WrapStoresOutside | extensions/websocket/src/WsConnection.cc:78-80 | a family of connections of at most 1200 bytes on which a byte is stored outside |
| WebSocket.Connection.ReadExact | extensions/websocket/src/WsConnection.cc:28-39 | returns exactly the next len bytes however reads split them, failing exactly if fewer come |
| WebSocket.Connection.ReadLength | extensions/websocket/src/WsConnection.cc:59-72 | the big-endian value of the extra bytes, or the code itself |
| WebSocket.Connection.ReadInto | extensions/websocket/src/WsConnection.cc:28-39 | stores the next len bytes from an offset on, failing exactly if fewer come, and tells whether each went inside the buffer |
| WebSocket.Connection.ReadPayload | extensions/websocket/src/WsConnection.cc:74-84 | appends the payload, unmasked in place, in a buffer resized modulo 2^64 |
| WebSocket.Connection.ReceiveMessage | extensions/websocket/src/WsConnection.cc:43-105 | message, unread bytes and bytes written are those of decoding the whole input, for any read split, and every byte was stored inside the payload exactly under the condition of StoresInsideIff |
| WebSocket.Connection.SendFrame | extensions/websocket/src/WsConnection.cc:109-138 | writes the frame in the shortest length encoding |
| FileCache.Cache.Get | extensions/http/src/StaticFiles.cc:134-146 | a live entry moves to the front, an expired one goes, and the rest keeps its order |
| FileCache.Cache.Invalidate | extensions/http/src/StaticFiles.cc:148-153 | removes exactly that key from list, index and size |
| FileCache.Cache.Put | extensions/http/src/StaticFiles.cc:155-175 | evicts exactly the shortest least-recently-used suffix that makes room; the size is within the cap afterwards if and only if the file is |
| FileCache.Cache.EvictToFit | extensions/http/src/StaticFiles.cc:164-170 | the loop stops at the longest prefix that leaves room |
| FileCache.Run | extensions/http/src/StaticFiles.cc:221-222 | after any gets, puts and invalidations of files that pass the clamped limit the cache is consistent and within its cap, and its list is what After makes of them one by one |
| FileCache.InUseStaysIff | extensions/http/src/StaticFiles.cc:334-371 | the node that a get or put handed out is still in the list at a later use if and only if no use in between finds it expired, replaces it, invalidates it, or stores a file for which the other nodes up to and including it leave no room |
| FileCache.PutRemovesNodeInUse | extensions/http/src/StaticFiles.cc:413-425 | any node in use, and any file that does not fit beside it: a put of the file takes the node out |
| Base64.EncodeLoop | src/utils/Base64.cc:32-61 | the index loop fills the preallocated result exactly, with every write in bounds |
| Base64.NeededFits | src/utils/Base64.cc:73-77 | the computed output size is never too small, for any input |
| Base64.DecodeLoop | src/utils/Base64.cc:63-106 | every write is in bounds for any non-empty input, and bad characters are refused |
| Base64.RoundTrip | src/utils/Base64.cc:32-106 | decoding undoes encoding for every non-empty byte string |
| Base64Text.EncodedIs | src/utils/Base64.cc:32-61 | section 4 of RFC 4648 by position: character k is the one that table 1 has for bits 6k to 6k + 5 of the input, with zero bits behind its end, and a pad where the input has no bit left |
| Base64Text.DecodesIff | src/utils/Base64.cc:63-106 | a non-empty input is refused exactly if, padded to whole groups, it has a character that is not in the alphabet and not a pad in the third or fourth place of its group |
| Base64Text.PaddingIsOptional | src/utils/Base64.cc:63-71 | every encoding is decoded without its padding, too |
| UrlEncode.EncodeLoop | src/utils/UrlEncode.cc:83-113 | both encoders byte by byte |
| UrlEncode.DecodeLoop | src/utils/UrlEncode.cc:35-71 | one pass decodes the whole string, invalid sequences kept |
| UrlEncode.RoundTrip | src/utils/UrlEncode.cc:73-113 | both decoders undo their encoders on every byte string |
| UrlEncode.DecodeKeepsSlashes | src/utils/UrlEncode.cc:35-76 | decoding a path neither adds nor removes a slash |
| UrlEncode.EncodedByteIs | src/utils/UrlEncode.cc:83-113 | unreserved bytes, and in a path the slash, stay as they are; every other byte becomes a percent sign and two upper-case digits |
| UrlEncode.DecodedPlus | src/utils/UrlEncode.cc:42-45 | a plus is a space in a component and a plus in a path |
| UrlEncode.DecodedEscape | src/utils/UrlEncode.cc:46-60 | a percent sign and two digits of either case are the byte they name, except that a path keeps a slash encoded |
| UrlEncode.DecodedOther | src/utils/UrlEncode.cc:46-68 | everything else stays, a percent sign that two digits do not follow included |

## Left out

- Weak memory orders: every atomic operation is one sequentially consistent step.
- Coroutine frames, `Task` and `Generator`: a coroutine is a program counter.
- epoll, sockets, eventfd and files beyond the small abstract kernel of `Channel` and `Scheduler`.
- TLS, libpq and the query protocol of the PostgreSQL connections.
- Regex routes, and the text of the Allow header: the set of allowed methods is returned instead.
- Query strings, cookies and percent-decoding of the request path in the request parser: targets and cookie values are kept as they came.
- Header name tables, reason phrases, MIME types, ETags, date formatting, ranges and content negotiation of static files.
- Stream upgrades and the TLS upgrader of `handleConnection`: a connection taken over by one is a handler that stops.
- Destruction of the resolver or the pool while work is outstanding.
- `sendFrame` with a mask: nothing calls it and no key is written.
- HttpOutgoing.Send: for messages on which the application set neither Content-Length nor Transfer-Encoding; with either set the framing is the application's.
- HttpOutgoing.SendResponse: the same messages as HttpOutgoing.Send.
- HttpExchange.AnswerAll: answers to HEAD, responses that are broken off half-way, and handlers that call setCloseConnection themselves.
- HttpOutgoing.Outgoing.BuildHeaders: the header map is walked in an arbitrary fixed order, not in the order of the names.
- HttpOrder.ResponsesInOrder: a response makes its calls one after another and ends once.
- HttpRouter.LookupInsert: the tree is a value that insertion rebuilds, so update in place is not captured.
- HttpServer.RunHandler: reads into an empty buffer, which chunked readers refuse and the close-delimited reader takes for the end of the connection.
- BodyWriter.Writer.Write: chunks above 2^52 - 1 bytes, whose size line does not fit the 16-byte buffer it is printed into.
- Base64.DecodeLoop: the empty input, on which the code reads before the start of its input.
- WebSocket.Connection.ReceiveMessage: inputs of 2^64 bytes and more; a resize that fails for lack of memory; what a byte stored outside the payload does to the rest of the program.
- Pool.SetOnce: a cancellation that comes after the promise was set leaves its outcome alone here; the callback itself would throw.
- Cancel.StepKeepsInv: cancel also resumes the coroutines suspended on the token, through the list that `Future` models; those resumptions are not steps here.
- Channel.StepKeepsInv: operations that start with WaitHint::None and call before they wait, as only the PostgreSQL handshake does.
- Writers.LostIff: one direction of a channel, with writable, error and cancel events at any time and no kernel behind them; partial writes that go on at once are one call.
- HttpParser.Parser.ParseLine: the target of a request line is kept as one string; splitting off and decoding path and query are left out.
- HttpParser.Parser.ParseHeader: cookie values are kept as they came.
- HttpHead.RequestTextRoundTrip: the target is read back as one string.
- HttpOutgoing.Outgoing.DecideTransferMode: where the application set Content-Length or Transfer-Encoding it says only that the writer is of the mode chosen.
- HttpRouter.Router.FindRoute: regex routes.
- FileCache.Cache.Get: list iterators are the nodes they point at, and file sizes do not change between the size test and the read.
