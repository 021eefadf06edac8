# Verified core of futures_cpp

A Dafny model of the parts of futures_cpp where the work is hard to see from one function: the
wake-up protocol of spawned tasks and the executors that run them, the WebSocket and HTTP body
parsers, write coalescing over TLS, reference-counted buffers and the queue made of them, stream
pipelines, DNS names and JSON text.

How the source's forms are kept:

- Threads and atomics (`UnparkMutex`, `IOBuf`'s counts and flags, both executors, `SharedFuture`)
  are transition systems. Each atomic operation, each section under a lock and each free is one
  step, and a theorem about every reachable state is a theorem about every interleaving of any
  number of threads.
- Code that updates objects or fills buffers is a class or a method with the source's loops, proved
  against a function of its input; the theorems are then about that function.
- Code that only computes is a function with lemmas.

| module | what it models |
|---|---|
| TaskWakeup, TaskPolls | `UnparkMutex` and `FutureSpawnRun::run`: one task, any number of notifiers and executor threads |
| EventLoop, CpuPool, SharedFuture, TimerKeeper | the two executors, the shared future, the timer list |
| WebSocket, WebSocketFrames, WebSocketBytes, WebSocketCodec | the frame parser, the frame format and reassembly, arbitrary bytes, encoder and decoder |
| HttpBody, HttpChunks, HttpReader | message body lengths and states, the chunked format, the parser object |
| SocketWrite | plain and TLS vectored writes |
| BufferLifetime, BufferChain, BufferQueue | reference-counted storage, rings of IOBufs, `IOBufQueue` |
| Streams | stream combinators and the futures that drain a stream |
| DomainName | DNS names, printed and parsed |
| JsonText, JsonLayout, JsonLexer, JsonUnicode, JsonParser, JsonReader | serializer and its layout, token language, UTF-8, grammar, and the scanner and parser objects |
| Bytes, Arithmetic, Wrappers | bytes, concatenation, exclusive or, division facts, optional values |

## Findings

Places where the code does not do what one would expect of it. Each is stated with the exact
condition, and the model does what the code does.

- `EventExecutor::run(true)` can return over a runnable it has accepted: it reads that no task is
  running, a task is spawned and handed in, the loop is stopped, and it reads that
  (`EventLoop.LeavesOverWork`). When it leaves, everything is done if and only if every task spawned
  since the read of `getRunning()` that let it leave was refused (`EventLoop.LeavesOnlyWhenDone`).
- A `stop()` made after the loop was left and before `run()` resets the flag is forgotten; the next
  `run(true)` can sleep for good (`EventLoop.LateStopIsErased`). Later requests are not
  (`EventLoop.NeverSleepsOverStop`).
- A WebSocket continuation frame behind a finished message is accepted and delivers that message
  once more with the stray payload attached (`WebSocketFrames.StrayContinuationAccepted`), and a
  message that starts while another is open is accepted and the open one dropped
  (`WebSocketFrames.OpenMessageDropped`). Section 5.4 of RFC 6455 forbids both; what is accepted is
  stated exactly by `WebSocketFrames.Reassembly`.
- The WebSocket encoder writes only text frames; its other branches compare the header byte
  instead of the frame's kind (`WebSocketCodec.EncodeDataFrame`).
- A TLS write reports exactly what the plain socket would if and only if the answer that stops it
  is not an error and not a clean end with a return code other than 0: that code is counted as bytes
  (`SocketWrite.SslWrite`). One buffer and a first answer of -1 give a total of -1
  (`SocketWrite.NegativeProgress`).
- What a chunked HTTP body delivers depends on how the input was cut into calls if and only if some
  chunk's data ends within the input and the next byte is not CR (`HttpReader.CutMattersExactly`;
  `HttpReader.ErrorDependsOnSplit` is such an input). The call that meets that byte drops what it
  had marked (`HttpReader.LostExactly`).
- `IOBufQueue::prepend` and packed `append` write without looking at the reference count.
  Prepending is right and harmless, whatever the data, if and only if no other buffer reaches into
  the room before the head (`BufferQueue.PrependExactly`, `BufferQueue.HarmlessExactly`); packing
  buffers that lie elsewhere is harmless, whatever the room held, if and only if nobody reaches into
  the room behind the tail (`BufferQueue.PackExactly`). After a `split` inside a buffer, prepending
  to the part that stays overwrites the part handed out (`BufferQueue.PrependAfterSplitHarms`).
  Packing behind the part that stays is harmless to the other, but packing behind the part handed
  out, as the tail of another queue, overwrites the one that stays (`BufferQueue.PackAfterSplit`,
  `BufferQueue.PackOverwrites`).
- Counting and printing a DNS name disagree if and only if its text is longer than the limit and
  the buffer holds it; a well-formed name has no such text (`DomainName.CountAndPrint`). Five labels of
  63 zero bytes are counted as too long and printed in 1265 bytes (`DomainName.PrintedBeyondLimit`).
- A `\u` escape of a low surrogate without a high one in front of it is accepted and decoded to three
  bytes that are not UTF-8; all other escapes decode to UTF-8 or are refused
  (`JsonUnicode.LoneSurrogates`, `JsonUnicode.CodeReads`, `JsonUnicode.PairReads`).
- A pool of no threads accepts tasks that nobody runs (`CpuPool.JoinMeansDone`, `CpuPool.NoThreadsNoWork`).
- A timer keeper never misses a token, whenever its timer goes off and whatever is cancelled, if and
  only if its tokens are in the order of their deadlines and the timer is set for no later than the
  first (`TimerKeeper.NeverMissesExactly`); a new token keeps it so if and only if its deadline is
  not before that of the last one (`TimerKeeper.AddExactly`). Tokens made by `doTimeout()` alone
  always come in that order (`TimerKeeper.EqualWaitsNeverMiss`). With `doTimeout(tok)` in use, the
  new token can be missed (`TimerKeeper.MissedToken`), a later one made by `doTimeout()`
  (`TimerKeeper.MissedTimeout`), or one that is covered at first and left behind when the timer is
  set again (`TimerKeeper.MissedWhenSetAgain`).

## Model

| member | source | states |
|---|---|---|
| TaskWakeup.ExclusiveOwnership | include/futures/UnparkMutex.h:27-78 | in every reachable state the future is in at most one of data_, a notifier's hands, the queue and a runner's hands, in exactly one unless completed or refused; no two parties touch data_; a failed exchange in wait() has seen repoll |
| TaskWakeup.CompleteIsAbsorbing | include/futures/UnparkMutex.h:46-78 | once complete, always complete, with no further poll |
| TaskWakeup.NoLostWakeup | include/futures/Future.h:372-427 | while a notification of an uncompleted task is unanswered, somebody is bound to start a poll without being woken again |
| TaskWakeup.WakeupIsAnswered | include/futures/UnparkMutex.h:27-78 | on every endless run of an executor that is not stopped, in which calls of notify() and run() under way and the executor's queue are not held up forever, each notification is followed by a poll that starts after it, or by completion; nobody is bound to notify again |
| TaskWakeup.QuietRunIsFair | include/futures/Future.h:396-427 | every finite run that comes to rest, continued with no notification at all, is such a run |
| TaskWakeup.SingleNotification | include/futures/Future.h:396-427 | so is a run with one notification only, which ends parked forever after the poll it asked for |
| TaskPolls.PollsAreAskedFor | include/futures/UnparkMutex.h:27-78 | in every run the task is polled at most once for having been spawned and once for each compare-exchange of notify() that succeeded, of which each call makes at most one |
| TaskPolls.TaskComesToRest | include/futures/UnparkMutex.h:27-78 | on every fair run in which notifications stop, from some point on nobody has anything to do with the task and it is not polled again; unless the executor was stopped all that was asked for is answered by then, and a task that is never ready is parked |
| TaskPolls.DroppedExactly | include/futures/CpuPoolExecutor.h:87-93 | in every run the executor takes work until it is stopped, and the task is dropped if and only if a notification handed it over after that |
| TaskWakeup.StepKeepsInv | include/futures/UnparkMutex.h:27-78 | every step of every thread keeps the ownership invariant |
| TaskWakeup.DebtIsPaid | include/futures/Future.h:396-427 | the party that owes a poll gets there in finitely many of its own steps, whatever the others do |
| EventLoop.OnceAndInOrder | include/futures/EventExecutor.h:19-30 | each accepted runnable is run once, in the order of the queue it came through, or is still queued there |
| EventLoop.NeverSleepsOverWork | include/futures/EventExecutor.h:61-99 | while the loop blocks its own queue is empty, and a waiting foreign runnable has a signal pending or a thread about to send one |
| EventLoop.NeverSleepsOverStop | include/futures/EventExecutor.h:40-48 | while the loop blocks and a stop was requested since its last reset of the flag, a signal is pending or a thread about to send one |
| EventLoop.ZeroMeansDone | include/futures/EventExecutor.h:75-84 | whenever the loop reads that no task is running, every task spawned is over, every runnable accepted was run and none is queued |
| EventLoop.LeavesOnlyWhenDone | include/futures/EventExecutor.h:75-96 | when run() has left the loop its own queue is empty, and everything is done if and only if every task spawned since the deciding read of getRunning() was refused |
| EventLoop.LeavesOverWork | include/futures/EventExecutor.h:75-78 | a reachable state behind run(true) with a task uncompleted and its accepted runnable queued |
| EventLoop.LateStopIsErased | include/futures/EventExecutor.h:94-96 | from a reachable state in which run() is about to reset the flag, a stop can be followed by a run(true) that sleeps with no signal pending and no thread to send one |
| EventLoop.RefusedExactly | include/futures/EventExecutor.h:19-30 | what another thread hands in is refused, with queues and accepted lists as they were, its task dropped and the lock free, if and only if a stop was requested since the last reset when execute() reads the flag; otherwise it goes to the end of the queue |
| EventLoop.StepsTellAll | include/futures/EventExecutor.h:19-99 | after any run the runnables accepted from either side in order, the tasks refused, the tasks alive and the tasks uncompleted are what the steps tell without looking at the state |
| EventLoop.StepKeepsInv | include/futures/EventExecutor.h:19-133 | every step of the loop and of the other threads, each read and write of the flag and the task count apart, keeps order, lock, signal and task invariants |
| CpuPool.EachTaskOnce | include/futures/CpuPoolExecutor.h:87-93 | tasks start in the order of acceptance; each acceptance is one finish, one run in progress or one place in the queue |
| CpuPool.WorkIsNoticed | include/futures/CpuPoolExecutor.h:139-160 | while a worker sleeps, at least as many workers are about to look into the queue as there are items in it |
| CpuPool.MarkersMatchWorkers | include/futures/CpuPoolExecutor.h:124-160 | after shutdown the markers in the queue are as many as the workers still to take one, so no worker waits and none finds the queue empty |
| CpuPool.JoinMeansDone | include/futures/CpuPoolExecutor.h:124-137 | when all threads are joined, the queue is empty and all accepted tasks were finished if and only if the pool has threads or accepted nothing |
| CpuPool.NoThreadsNoWork | include/futures/CpuPoolExecutor.h:87-93 | a pool without threads can accept a task, be shut down and joined, and never run it |
| CpuPool.ShutdownEnds | include/futures/CpuPoolExecutor.h:124-160 | after shutdown the workers take exactly as many steps as are left, one can always step until all have exited, and with at least one worker none is left if and only if all have exited |
| SharedFuture.Agreement | include/futures/Future-inl.h:276-292 | all polls that return a result return the one the inner future produced |
| SharedFuture.PolledUntilReady | include/futures/Future-inl.h:276-292 | the inner future is not polled again once it has produced its result |
| SharedFuture.NobodyForgotten | include/futures/Future-inl.h:276-315 | a task told not-ready is on the waiters' list or has been woken or polled since |
| SharedFuture.SleepersAreReached | include/futures/Future-inl.h:276-315 | while a task sleeps, the last one told not-ready is awake or registered with the inner future; a result or a dropped clone wakes everybody |
| SharedFuture.StepsTellAll | include/futures/Future-inl.h:276-315 | after any run every poll from the first ready answer on has returned it and no other has returned anything, and the sleepers are those told not-ready since all were last woken |
| TimerKeeper.NeverMissesExactly | include/futures/TimerKeeper.h:93-129 | whenever the timer goes off and whatever is cancelled, no token is ever missed, if and only if the tokens are in the order of their deadlines and the timer is set for no later than the first |
| TimerKeeper.AddExactly | include/futures/TimerKeeper.h:93-101 | a new token keeps it so if and only if its deadline is not before that of the last one |
| TimerKeeper.EqualWaitsNeverMiss | include/futures/TimerKeeper.h:72-76 | in every run of a keeper whose tokens all come from doTimeout() it is so |
| TimerKeeper.TimerKeeper.DoTimeout | include/futures/TimerKeeper.h:72-76 | adds a token due after the timeout to any keeper; no token is missed afterwards if and only if the last one before it is not due later |
| TimerKeeper.TimerKeeper.AddTimer | include/futures/TimerKeeper.h:93-101 | with any deadline and on any keeper: when the list is sorted afterwards, when the timer covers every token, and when none will ever be missed, each by an if-and-only-if on the keeper before and the deadline |
| TimerKeeper.TimerKeeper.Cancel | include/futures/TimerKeeper.h:103-105 | removes the token from anywhere in the list, the timer untouched, and makes no other token be missed |
| TimerKeeper.TimerKeeper.OnTimer | include/futures/TimerKeeper.h:107-129 | on any keeper: completes the tokens due at the front in order and sets the timer for the first of the others; these are all the tokens due if and only if none due is behind, and the timer covers those left if and only if the first of them is due first; both hold if no token is ever missed |
| TimerKeeper.FrontIsDue | include/futures/TimerKeeper.h:107-129 | the tokens due are those at the front if and only if no other is due, as in every sorted list, so the arrival list does what a priority queue would |
| TimerKeeper.MissedToken | include/futures/TimerKeeper.h:78-82 | a token with its own deadline can be due while the timer is not |
| TimerKeeper.MissedTimeout | include/futures/TimerKeeper.h:72-82 | so can a token made by doTimeout(), behind one with its own deadline |
| TimerKeeper.MissedWhenSetAgain | include/futures/TimerKeeper.h:121-127 | so can a token the timer covered, once onTimer has set the timer for one in front of it |
| WebSocket.SplitIndependence | src/http/ws_parser.c:39-298 | cutting any byte stream into calls in any way gives the same queue, state and outcome as one call |
| WebSocket.RunIsTakeChunk | src/http/ws_parser.c:239-293 | taking a chunk of payload at once, with its mask phase and the data limit, is taking it byte by byte |
| WebSocket.WsParser.Execute | src/http/ws_parser.c:39-298 | the in-place loop reads the whole buffer, returns the code, queues the messages and leaves the state and the unmasked buffer that reading byte by byte gives |
| WebSocket.WsParser.Unmask | src/http/ws_parser.c:239-260 | the chunk is unmasked in place with the mask position taken modulo four, and no other byte changes |
| WebSocket.WsParser.OnOpcode | src/http/ws_parser.c:60-107 | the opcode state agrees with the specification in state and return code |
| WebSocket.WsParser.OnLengthOrMask | src/http/ws_parser.c:109-237 | so do the length and mask states |
| WebSocket.WsParser.OnPayload | src/http/ws_parser.c:239-293 | so does the payload state, on as many bytes as are there |
| WebSocketFrames.ReadFrame | src/http/ws_parser.c:59-293 | parsing the encoding of a frame, masked or not, does to the parser what delivering the frame does |
| WebSocketFrames.Reassembly | src/http/ws_parser.c:59-293 | for any sequence of frames, however cut: accepted if and only if every frame is acceptable, with the messages completed before the first unacceptable one queued in completion order, each the concatenation of its fragments |
| WebSocketFrames.WellOrderedFramesAreDelivered | src/http/ws_parser.c:59-293 | well-ordered frames within the limit, control frames between fragments included, are accepted with all their messages |
| WebSocketFrames.StrayContinuationAccepted | src/http/ws_parser.c:70-75 | a continuation behind a finished message is accepted, and the queue holds the message and then the message with the stray payload attached |
| WebSocketFrames.OpenMessageDropped | src/http/ws_parser.c:91-103 | a text frame inside an open message is accepted, and the queue holds only the second message |
| WebSocketBytes.HeaderIsJudged | src/http/ws_parser.c:60-221 | a header of any bytes is refused for the first thing wrong with it, with that code: a reserved bit, an unknown opcode, a stray continuation, a fragmented or too long control frame, a length that is not the shortest; otherwise it is read as it is |
| WebSocketBytes.BytesAreFrame | src/http/ws_parser.c:60-293 | an accepted header, any masking key and as many bytes as announced do what the frame they make up does |
| WebSocketBytes.DecodeFrame | src/http/WsCodec.cpp:80-105 | a new decoder given such a frame hands it out with the kind its opcode names and its unmasked payload |
| WebSocketBytes.MaskedExamples | src/http/ws_parser.c:239-260 | the masked text of section 5.7 of RFC 6455, and the masked pong, come out as Hello |
| Bytes.XorIsBitwise | src/http/ws_parser.c:249-252 | each bit of the exclusive or is set if and only if the two bits differ |
| WebSocketCodec.EncodeLength | src/http/WsCodec.cpp:223-242 | writes the shortest length field, most significant byte first |
| WebSocketCodec.EncodeDataFrame | src/http/WsCodec.cpp:197-221 | writes a frame if and only if it is a text frame, and then its encoding |
| WebSocketCodec.TextRoundTrip | src/http/WsCodec.cpp:197-242 | encoded texts, in whatever buffers they arrive, parse back to themselves in order, if and only if each is within the data limit |
| WebSocketCodec.CallsKeepQueue | src/http/WsCodec.cpp:18-60 | what is already queued stays in front and changes nothing else |
| WebSocketCodec.RunKeepsSane | src/http/WsCodec.cpp:80-105 | only known frame kinds are ever queued, so pollFrame never throws |
| WebSocketCodec.Decoder.PollFrame | src/http/WsCodec.cpp:80-105 | hands out the front of the queue with its kind |
| WebSocketCodec.Decoder.Decode | src/http/WsCodec.cpp:135-164 | call after call hands out exactly the messages due from all the bytes received, in order |
| HttpBody.LengthIsExactOrRefused | src/http/http_parser.c:1973-1984 | the guarded 64-bit accumulation yields the number written, or refuses it, if and only if it is above 18446744073709551609 in decimal or 2^64 - 17 in hexadecimal |
| HttpBody.ContentLength | src/http/http_parser.c:1565-1590 | the value of a Content-Length field: exact or refused, spaces passed over, never the all-ones mark of an absent length |
| HttpBody.RunIsSound | src/http/http_parser.c:1882-2052 | in every run the length in the body and chunk-data states is neither zero nor the absent mark, and is zero behind a chunk |
| HttpBody.IdentityBody | src/http/http_parser.c:1882-1916 | with a Content-Length the body is exactly that many bytes, followed by one message-complete, and nothing behind them is touched |
| HttpBody.RunUntilEof | src/http/http_parser.c:1919-1924 | without a length every byte belongs to the body |
| HttpChunks.ChunkedBody | src/http/http_parser.c:1934-2052 | on every input the chunk states agree with the chunked format: same body bytes, same end, one message-complete, or an error |
| HttpChunks.LineRuns | src/http/http_parser.c:1934-2013 | a chunk-size line is read as number, extension and line end, or refused, within the header size limit |
| HttpChunks.ChunkedRoundTrip | src/http/http_parser.c:1934-2052 | whatever is sent in chunks, with any spelling of sizes and any extensions, arrives as the concatenation of the data, and the bytes behind the message are left |
| HttpChunks.EveryMessage | src/http/http_parser.c:1820-1880 | for every combination of chunked coding, length, bodiless messages and need of the end of input, and any bytes: the body is what section 3.3.3 of RFC 7230 says, the message completes once and where it ends, and the rest is left |
| HttpChunks.PrintedLength | src/http/http_parser.c:1565-1590 | any number printed in decimal is read as itself, or refused above the ceiling |
| HttpChunks.HexadecimalReads | src/http/http_parser.c:1934-1984 | any number printed in hexadecimal, letters in either case, is read as itself |
| HttpReader.SplitIndependence | src/http/http_parser.c:2055-2083 | however the input is cut, the same state and left-over bytes, and unless there is an error the same bytes given to on_body |
| HttpReader.LostExactly | src/http/http_parser.c:2038-2044 | a call leaves marked bytes undelivered if and only if it fails at the byte behind a chunk's data, and not on its first byte |
| HttpReader.CutMattersExactly | src/http/http_parser.c:2038-2044 | for every message and input: all ways of cutting the input give on_body the same bytes, if and only if the body is not chunked or no chunk whose data ends within the input is followed by a byte other than CR |
| HttpChunks.LostIffBroken | src/http/http_parser.c:2015-2044 | the byte machine fails with bytes marked exactly on those inputs |
| HttpReader.ErrorDependsOnSplit | src/http/http_parser.c:2038-2044 | one malformed input that delivers nothing in one call and a byte in two |
| HttpReader.HttpParser.Execute | src/http/http_parser.c:1882-2083 | the loop with its marks and bulk reads computes what one call of the byte machine does, returns how many bytes it took, and leaves a sound state for the next call |
| HttpReader.HttpParser.ReadData | src/http/http_parser.c:1882-1924 | takes as much data as is due and there, and finishes the body exactly when all of it came |
| HttpReader.DataRuns | src/http/http_parser.c:2015-2036 | a bulk read is what the byte machine does on the same bytes |
| SocketWrite.PlainProgress | src/AsyncSocket.cpp:28-45 | the pair of full buffers and bytes into the next is the canonical position of the total |
| SocketWrite.PositionIsUnique | src/AsyncSocket.cpp:28-45 | there is only one such pair |
| SocketWrite.Join | src/AsyncSSLSocket.cpp:204-244 | the combined record is the next bytes of the concatenation, as many as the minimum write size or all that are left |
| SocketWrite.SslWrite | src/AsyncSSLSocket.cpp:184-285 | for any buffers, minimum size and answers: what the peer gets is the prefix of the concatenation that full records and the deciding answer, a function of the answers, make up; the result is that answer's error, or total and position; they are those of the plain write if and only if the deciding answer is no error and no clean end with a non-zero code, hence always if no answer is |
| SocketWrite.NegativeProgress | src/AsyncSSLSocket.cpp:250-263 | one buffer of one byte and a clean end with code -1 are reported as total -1 and partial -1 |
| BufferLifetime.CountIsExact | src/folly/IOBuf.cpp:522-534 | in every interleaving of clones, moves and destructions the count is the IOBufs on the storage plus the clones being made |
| BufferLifetime.NoUseAfterFree | src/folly/IOBuf.cpp:155-191 | no step of any thread touches a count, data or flag word that was freed |
| BufferLifetime.LiveDataIsKept | src/folly/IOBuf.cpp:392-403 | an IOBuf in use has its data and its count |
| BufferLifetime.ReleasedFlagIsSet | src/folly/IOBuf.cpp:155-164 | the debug assertion of releaseStorage holds |
| BufferLifetime.FreedAtMostOnce | src/folly/IOBuf.cpp:687-721 | data, SharedInfo and block are freed at most once, the data only at count zero |
| BufferLifetime.ZeroIsFinal | src/folly/IOBuf.cpp:522-534 | a count of zero stays zero |
| BufferLifetime.CombinedFreedBySecond | src/folly/IOBuf.cpp:149-191 | the combined block is freed if and only if both the object and the data were released |
| BufferLifetime.NothingLeaks | src/folly/IOBuf.cpp:837-853 | when all IOBufs are gone, everything allocated was freed once |
| BufferLifetime.RetryFrees | src/folly/IOBuf.cpp:165-186 | after a genuine failure of the exchange the next turn frees the block |
| BufferLifetime.StepsTellIOBufs | src/folly/IOBuf.cpp:341-403 | over any steps, IOBufs in use grow by one for each clone that returned and shrink by one for each dropped, a move makes a new one of the old, and clones under way are those begun and not returned |
| BufferLifetime.CleanupEnds | src/folly/IOBuf.cpp:155-191 | threads that destroy IOBufs take at most the steps that are left, whatever compare-exchange they lose, and until an IOBuf dropped is gone its thread can step; one in use can finish its clones and be dropped |
| BufferChain.IOBuf.PrependChain | src/folly/IOBuf.cpp:486-502 | relinks two rings into one: this chain's members, then the other's |
| BufferChain.IOBuf.AppendChain | include/futures/core/IOBuf.h:795-798 | puts the other ring right behind this member |
| BufferChain.IOBuf.Unlink | include/futures/core/IOBuf.h:815-821 | leaves this member alone and the others a ring |
| BufferChain.IOBuf.Pop | include/futures/core/IOBuf.h:827-834 | the same, and returns the rest of the chain or null if there is none |
| BufferChain.IOBuf.SeparateChain | include/futures/core/IOBuf.h:851-862 | cuts a stretch of members out as a ring of its own and closes the gap |
| BufferChain.IOBuf.ChainLength | src/folly/IOBuf.cpp:478-484 | the walk around the ring adds up the length of the chain's bytes |
| BufferChain.IOBuf.CoalesceSlow | src/folly/IOBuf.cpp:596-612 | this member alone holds the bytes of the whole chain |
| BufferChain.IOBuf.CoalesceUpTo | src/folly/IOBuf.cpp:614-638 | throws if and only if the chain is shorter than asked, and then no member has changed; otherwise joins as few members as suffice, and the chain's bytes are the same |
| BufferChain.IOBuf.CoalesceAndReallocate | src/folly/IOBuf.cpp:640-685 | copies the members' bytes in order, drops them from the ring, and keeps the chain's bytes |
| BufferChain.IOBuf.DestroyRest | src/folly/IOBuf.cpp:392-403 | the destructor's loop ends, with every other member unlinked exactly once |
| BufferChain.RingTurns | src/folly/IOBuf.cpp:486-502 | a ring is the same seen from any member |
| BufferQueue.IOBufQueue.Append | src/folly/IOBufQueue.cpp:147-166 | the bytes are added at the end, the cached length stays exact, and no IOBuf held outside sees a change |
| BufferQueue.IOBufQueue.AppendChain | src/folly/IOBufQueue.cpp:38-63 | joins or packs a chain: for every sharing the chain and every byte of memory afterwards, the cached length exact; if the tail is unshared, or nobody reaches into the room packed into, the contents are concatenated and nobody outside sees a change |
| BufferQueue.PackExactly | src/folly/IOBufQueue.cpp:49-57 | packing buffers that do not themselves reach into the room behind the tail is harmless to others, whatever the room held, if and only if none of them reaches into it |
| BufferQueue.CopiedIsBytes | src/folly/IOBufQueue.cpp:49-57 | what such packing writes, one memcpy after the other, is the bytes of the buffers |
| BufferQueue.PackAfterSplit | src/folly/IOBufQueue.cpp:49-57 | after a split inside a buffer, writing behind the part that stays is harmless to the part handed out, and writing behind the part handed out never is to the part that stays |
| BufferQueue.PackOverwrites | src/folly/IOBufQueue.cpp:49-57 | a byte packed behind the first half of a split buffer appears as the first byte of the second half |
| BufferQueue.IOBufQueue.Split | src/folly/IOBufQueue.cpp:190-213 | hands out exactly the first n bytes and keeps the rest, or throws with the queue emptied if there are fewer |
| BufferQueue.IOBufQueue.TrimStart | src/folly/IOBufQueue.cpp:215-230 | removes exactly the first bytes, or throws with the queue emptied |
| BufferQueue.IOBufQueue.TrimEnd | src/folly/IOBufQueue.cpp:232-252 | removes exactly the last bytes, or throws with the queue emptied |
| BufferQueue.IOBufQueue.PopFront | src/folly/IOBufQueue.cpp:254-262 | hands out the first buffer, contents split there |
| BufferQueue.IOBufQueue.MoveOut | include/futures/core/IOBufQueue.h:215-218 | hands out the whole chain with its bytes and leaves the queue empty |
| BufferQueue.IOBufQueue.Clear | src/folly/IOBufQueue.cpp:264-274 | leaves every buffer on its block, empty and from the beginning, and no bytes |
| BufferQueue.IOBufQueue.Prepend | src/folly/IOBufQueue.cpp:100-118 | succeeds if and only if there is room, and then writes exactly there; the contents gain the bytes in front if no other buffer of the chain reaches into the room, and nobody outside sees a change if none of theirs does, as with an unshared head |
| BufferQueue.PrependExactly | src/folly/IOBufQueue.cpp:100-118 | prepending n bytes puts them in front of the contents, whatever they are, if and only if no later buffer of the chain reaches into the room |
| BufferQueue.IOBufQueue.TailIsShared | include/futures/core/IOBuf.h:920-940 | the shared flag never hides a second user |
| BufferQueue.WriteBehind | src/folly/IOBufQueue.cpp:151-164 | writing behind an unshared buffer makes it longer and changes no other buffer |
| BufferQueue.CloneHeadBytes | src/folly/IOBufQueue.cpp:202-209 | cloning and trimming cuts the bytes in two at the same place |
| BufferQueue.HarmlessExactly | src/folly/IOBufQueue.cpp:100-118 | a write of n bytes is harmless to other buffers, whatever the bytes, if and only if none of them reaches into the place written |
| BufferQueue.PrependAfterSplitHarms | src/folly/IOBufQueue.cpp:100-118 | after a split inside a buffer, prepending to the rest is never harmless to the part handed out |
| Streams.PollStream | include/futures/Stream-inl.h:97-276 | one poll of any pipeline answers not-ready and loses nothing, delivers the first item of its meaning and keeps the rest, or ends as its meaning ends; and makes progress |
| Streams.PollMap | include/futures/Stream-inl.h:134-174 | the same for map |
| Streams.PollFilter | include/futures/Stream-inl.h:97-132 | the same for filter, through its loop |
| Streams.PollAndThen | include/futures/Stream-inl.h:176-240 | the same for andThen, which leaves the inner stream alone while a future is in flight |
| Streams.PollTake | include/futures/Stream-inl.h:242-276 | the same for take |
| Streams.CollectStreamFuture.Poll | include/futures/Stream-inl.h:60-95 | polls until not ready, keeping what it promises: all items, or the first error |
| Streams.WaitCollect | include/futures/Stream-inl.h:60-95 | polling collect to the end yields the list function applied to the source's items, or the first error in order |
| Streams.ForEachFuture.Poll | include/futures/Stream-inl.h:8-43 | calls the function on the items in order until one throws or the stream ends |
| Streams.ReadinessDoesNotMatter | include/futures/Stream-inl.h:59-276 | a pipeline means the same with all not-ready answers taken out, of the source, of futures in flight and of those that andThen's function makes; then no poll of it answers not-ready |
| Streams.ScriptIs | include/futures/Stream-inl.h:59-95 | the meaning of a source: its items up to the first error, in order |
| Streams.MapListIs | include/futures/Stream-inl.h:134-174 | the meaning of map: image by image up to the first that throws |
| Streams.FilterListIs | include/futures/Stream-inl.h:97-132 | the meaning of filter: exactly the items kept, in order |
| Streams.AndThenListIs | include/futures/Stream-inl.h:176-240 | the meaning of andThen: result by result up to the first that throws |
| Streams.TakeListIs | include/futures/Stream-inl.h:242-276 | the meaning of take: the first n items, and then the end whatever follows |
| Streams.VisitedIs | include/futures/Stream-inl.h:8-43 | the calls of forEach: on the items in order up to the first that throws |
| DomainName.Dnlen | src/udns/udns_dn.c:27-32 | the length of a name, whatever follows it |
| DomainName.DntopSize | src/udns/udns_dn.c:250-285 | the size of the text and its terminator, or zero above the limit |
| DomainName.Dntop | src/udns/udns_dn.c:287-334 | prints if and only if text and terminator fit, and returns that size |
| DomainName.TextIsBounded | src/udns/udns_dn.c:250-285 | the text of a well-formed name takes at most 1004 bytes |
| DomainName.CountAndPrint | src/udns/udns_dn.c:250-334 | counting and then printing: printing succeeds just where the count fits the buffer, except for a text above the limit in a buffer that holds it, and then fills exactly the counted size; a well-formed name counts at most 1004 |
| DomainName.PrintedBeyondLimit | src/udns/udns_dn.c:250-334 | five labels of 63 zero bytes are counted as 0 and printed in 1265 bytes |
| DomainName.Ptodn | src/udns/udns_dn.c:66-145 | succeeds if and only if the text denotes labels of 1 to 63 bytes whose wire form fits, writes that form and nothing beyond the limit, and returns its length |
| DomainName.TextReadsBack | src/udns/udns_dn.c:66-145 | parsing the text of a name gives its labels back |
| DomainName.NameRoundTrip | src/udns/udns_dn.c:66-145 | for every well-formed name, printing and parsing gives the same bytes |
| DomainName.PrintAndParse | src/udns/udns_dn.c:287-334 | calling the two routines one after the other writes the same bytes |
| DomainName.AnySpellingReads | src/udns/udns_dn.c:66-145 | a name with each byte written as it is, behind a backslash or in one to three digits, with or without a last dot, denotes its labels and is absolute just with the dot |
| DomainName.ParsesExactly | src/udns/udns_dn.c:66-145 | a text is accepted if and only if it is empty, a dot, or such a spelling |
| DomainName.EscapedExactly | src/udns/udns_dn.c:305-325 | which bytes are printed as they are, behind a backslash, and in three digits |
| JsonText.ExtraSpace | examples/json.hpp:5176-5215 | counts exactly by how much escaping makes a string grow |
| JsonText.EscapeString | examples/json.hpp:5225-5328 | fills a buffer of that size with the escaped string, every write in range |
| JsonLexer.StringTokens | examples/json.hpp:7510-7611 | any byte string, quoted, scans as one token whose value is that string |
| JsonLexer.IntTokens | examples/json.hpp:6659-7453 | any 64-bit integer scans as one token with that value |
| JsonLexer.DumpReads | examples/json.hpp:5347-5479 | a serialized value, at any indentation, scans as its tokens |
| JsonParser.TokensParse | examples/json.hpp:7698-7911 | the tokens of a value parse to the value |
| JsonParser.RoundTrip | examples/json.hpp:5347-5479 | parsing what dump wrote, compact or at any indentation, gives the value back |
| JsonParser.ParseIsStable | examples/json.hpp:7685-7911 | whatever text parses, its value is well formed and survives being written and parsed again |
| JsonParser.DumpIsInjective | examples/json.hpp:5347-5479 | different values never get the same text |
| JsonParser.InsertUpdates | examples/json.hpp:7762-7768 | assigning to a key is a map update, so the last of repeated keys wins |
| JsonLayout.DumpIsLines | examples/json.hpp:5347-5479 | a pretty-printed value is its lines: brackets on lines of their own, one item or member to a line with commas between, every line indented by the step for each bracket around it |
| JsonLayout.CompactIsLines | examples/json.hpp:5347-5479 | a compact value is the same lines without breaks, indentation and the space behind colons |
| JsonUnicode.CodeReads | examples/json.hpp:6544-6606 | for every code point a UTF-8 reader takes what is written for just that code point, in the shortest form; a low surrogate it does not take |
| JsonUnicode.PairReads | examples/json.hpp:6544-6606 | a high surrogate is written if and only if a low one follows, and then as the code point of the pair |
| JsonUnicode.EscapesDecode | examples/json.hpp:7510-7611 | any code points written as escapes, with digits in either case and in pairs where needed, decode to UTF-8 of just those code points |
| JsonUnicode.GetEscapedString | examples/json.hpp:7510-7611 | the same of the unescaping loop |
| JsonUnicode.LoneSurrogates | examples/json.hpp:7569-7598 | an escaped surrogate on its own is refused if it is a high one and decoded to three bytes that are not UTF-8 if it is a low one |
| JsonReader.GetString | examples/json.hpp:7510-7611 | the unescaping loop decodes the body of a string token |
| JsonReader.TakeToken | examples/json.hpp:6659-7453 | one token, with the scanner's loops |
| JsonReader.Lexer.Scan | examples/json.hpp:6659-7453 | the token at the cursor, the cursor moved behind it |
| JsonReader.Parser.ParseInternal | examples/json.hpp:7698-7911 | recursive descent with one token of lookahead computes the parse and stops behind the value |
| JsonReader.Parser.ParseObject | examples/json.hpp:7705-7780 | the member loop, from its first round on, commas included |
| JsonReader.Parser.ParseArray | examples/json.hpp:7782-7836 | the item loop |
| JsonReader.Read | examples/json.hpp:7685-7695 | the two objects together compute the parse of a text |

## Left out

- Memory orderings weaker than sequential consistency: every atomic step is taken to be seen by all threads at once.
- The concurrent parts (`UnparkMutex`, `FutureSpawnRun`, `IOBuf`'s counts, both executors, `SharedFuture`) are transition systems over values, not objects updated in place by Dafny methods.
- Stream combinators are values that each poll returns anew, not objects updated in place; `DropStreamFuture`, filter predicates that throw, and streams polled again after their end are not modelled.
- In BufferQueue blocks are entries of one list that stands for memory and a chain is a list of views; the links between IOBufs are modelled apart, in BufferChain. `reserve`, `unshare` and headroom kept by `coalesce` are not modelled.
- `append(IOBufQueue&)`, `wrapBuffer`, `preallocate` and switching length caching off are not modelled. A `memcpy` between overlapping ranges is taken to copy the bytes that were there before.
- BufferQueue.PackExactly: requires that the buffers packed do not reach into the room themselves; for others `AppendChain` states the memory that results.
- BufferLifetime.CountIsExact: the count is an unbounded integer, not 32 bits.
- Sockets, TLS and the event library are answers from outside: "took so many bytes", "would block", "an event came".
- EventExecutor called from a thread without an executor pushes to the local queue without the lock; only such calls outside a running loop are modelled. Tasks that throw are not.
- EventLoop.LeavesOnlyWhenDone: a task whose runnable was refused because the loop had been stopped counts as over.
- EventLoop and TaskWakeup are not composed: that a runnable is handed in and destroyed only by the one party that owns the task, which TaskWakeup proves of every run, is in EventLoop a guard of those steps.
- HTTP request lines, header fields and trailer fields: the model starts behind the header with the facts that decide the body, and stops at a trailer field; the `nread` count is modelled for the body states only. Callbacks that return errors or pause are not modelled, nor is an empty input, which announces the end.
- The WebSocket handshake, SHA-1, base64 and the HTTP encoder behind `HandshakeResponse`.
- JSON floating point, parser callbacks, and refilling the scanner from a stream; a number that is not a 64-bit integer makes the parse `Inexact`, after which nothing is claimed. `strtold` is taken to be exact on 64-bit integers.
- SharedFuture: moved-from clones and copy assignment are not modelled.
- IP address tables, subprocesses, files, compression, `LineBasedDecoder`, `LengthFieldBasedFrameDecoder` and the LRU cache are not modelled.
- `JoinFuture`, `ChainStateMachine` and the other single-future combinators are not modelled.
