# corouv, modelled and proved in Dafny

corouv is a C++20 coroutine library over libuv. This project models the parts of it whose
correctness spans several functions or whole runs, and proves what its code and the standards it
follows promise. `dafny verify dfyconfig.toml` checks everything.

* **HTTP/1.1 framing** (`Text`, `HeaderFields`, `ByteBuffer`, `HttpReader`, `Chunked`,
  `HttpHeaders`, `HttpMessages`, `HttpConnection`, `HttpExchange`). A stream hands out any
  non-empty part of the bytes in flight, so every result holds for every fragmentation. Each
  reading loop is proved against a function on the incoming bytes, and the laws that span writing
  and reading are proved about those functions.
* **`Expect: 100-continue`** (`ExpectContinue`, `ContinueAgreement`) as a client/server product
  machine with any number of requests on one connection.
* **Coroutine primitives** (`Semaphore`, `Mutex`, `AsyncQueue`, `Executor`, `TimerOp`,
  `TaskGroup`) as machines of atomic steps: one critical section of `_mu`, one exchange on `done`,
  one resumption is one step. Any number of tasks, threads and cancellations interleave freely. The
  mutex refines a semaphore of one permit; the queue is built on two semaphore machines.
* **Codec stream** (`CodecStream`): the pass-through codec, or any codec at all, whose every answer
  is arbitrary.
* **Parsers, printers, transformations**: `Form`, `Multipart` with `MultipartRoundTrip`, `Router`,
  and `Placeholders`, `Clauses`, `Statements` for the SQL builders.

Where the code does not keep a law on all inputs, the exact condition is proved and a family of
counterexamples is given:

* An empty chunk is written as the last chunk, so a chunked body survives exactly when no chunk is
  empty (`Chunked.RoundTripExactly`), and a message exactly when it is not chunked with an empty
  body (`HttpExchange.RequestReadBack`, `HttpExchange.ResponseReadBack`).
* The server takes exactly the body bytes the client sends, except for a chunked request with an
  empty body, of which it takes five (`ContinueAgreement.TakenExactly`). On a connection without
  such a request the exchange is free of deadlock and every response meets its request; behind the
  first one, the next request hears an answer to none (`ContinueAgreement.EmptyChunkedStrays`).
* A caller that starts a request with `Expect: 100-continue` while a response is still to be read
  takes that response for the interim one (`ExpectContinue.UndisciplinedCrosses`), and both sides
  can end up waiting (`ExpectContinue.PipelinedWaitDeadlocks`). `Client::request`, which reads each
  response before the next request, never does this.
* An acquire throws with its permit taken exactly when its slot was not cancelled at the check of
  `await_ready`, the permit was taken on the fast path, and the slot was cancelled before
  `await_resume`, be it before or after `try_acquire` (`Semaphore.LeakExactly`). A mutex is then
  locked for ever (`Mutex.LostForEver`), and a queue keeps an element, or loses a slot, for each such
  acquire (`AsyncQueue.ElementsBalance`, `AsyncQueue.CapacityBalance`).
* `?` text written for any backend means the same to PostgreSQL after numbering exactly when every
  `?` stands in the code of both, starts a token of PostgreSQL's and touches neither digit nor word
  behind it, and no `$` before a digit is a placeholder already (`Placeholders.RenderPreserves`). So
  `LIKE?` never survives (`Placeholders.TouchingWord`). Literals, quoted names, words and comments
  are read as each backend reads them. A column that leaves one of these open is the one way a
  comparison goes wrong (`Clauses.OpenColumn`).
* The size check of a chunk decides as it should exactly when its sum does not wrap `size_t`
  (`Chunked.SizeCheckExactly`).
* A name or file name survives a form part exactly when it holds no `;` and no backslash before
  another character (`MultipartRoundTrip.DispositionExactly`).
* Routers nested at wildcard-free mount points dispatch as one flat table exactly when no mount that matches
  leaves the request unhandled while a route of the flat table accepts it (`Router.FlatExactly`);
  a mount hides whatever is registered behind it (`Router.MountShadows`).
* A mount point that ends in `*` strips only what stands before the `*`, while the joined pattern
  never matches (`Router.WildcardMount`).

## Model

| member | source | states |
|---|---|---|
| `Text.TrimCopy` | src/http.cpp:91-105 | the two index loops return the value without the white space at its ends |
| `Text.TrimSplits` | src/http.cpp:91-105 | what trimming drops is white space at both ends, and what it keeps starts and ends with none |
| `Text.ParsePrint` | src/http.cpp:561-577 | parsing a printed number, decimal or hexadecimal, gives it back for every `size_t` value |
| `HeaderFields.WriteHeaders` | src/http.cpp:604-613 | the loop writes one `name: value` line per field, in order |
| `HeaderFields.HeaderReadBack` | src/http.cpp:420-434 | a line printed from a trimmed, CRLF-free field with a colon-free name is one line and parses back to the field |
| `ByteBuffer.BufferCursor.Append` | src/http.cpp:40 | the view grows by exactly the data |
| `ByteBuffer.BufferCursor.Compact` | src/http.cpp:58-71 | compaction never changes the view, and keeps the offset within the storage |
| `ByteBuffer.BufferCursor.Consume` | src/http.cpp:42-45 | the view loses its first bytes, all of them if there are fewer |
| `ByteBuffer.BufferCursor.TakeBytes` | src/http.cpp:47-51 | the bytes handed out are the ones removed from the view |
| `ByteBuffer.BufferCursor.Replay` | src/http.cpp:25-75 | any sequence of operations leaves the view, and has handed out the bytes, that the same sequence on a plain byte queue would |
| `HttpReader.ReadMore` | src/http.cpp:309-333 | moves bytes from the stream to the buffer without losing or reordering any, within the limits, and moves none only at end of stream |
| `HttpReader.EnsureBuffer` | src/http.cpp:335-351 | with room for the bytes, succeeds exactly when the peer has sent that many, fails only at end of stream, and loses no byte either way |
| `HttpReader.ReadLineCrlf` | src/http.cpp:353-380 | a line already buffered is returned whole; otherwise the first line of the incoming bytes, the error for one over the limit, or the error for a missing end, however fragmented; the bytes after it are left |
| `HttpReader.ReadFixedBody` | src/http.cpp:382-412 | the pieces handed out concatenate to exactly the announced bytes, or the error for a body over the limit or cut short |
| `HttpReader.ReadUntilCloseBody` | src/http.cpp:503-534 | everything up to the close, within the limit |
| `Chunked.WriteChunk` | src/http.cpp:561-577 | one chunk on the wire: hexadecimal size, line break, data, line break |
| `Chunked.WriteChunkedBody` | src/http.cpp:579-602 | the loop over the body source writes the chunked coding of all pieces and the trailers |
| `Chunked.RoundTripExactly` | src/http.cpp:414-501 | decoding what was encoded gives back the concatenated chunks, the trailers and the bytes that follow, if and only if no chunk is empty (section 7.1 of RFC 9112) |
| `Chunked.StopsAtEmptyChunk` | src/http.cpp:561-577 | reading stops at the first empty chunk and leaves everything written after it |
| `Chunked.TrailersRoundTrip` | src/http.cpp:420-434 | any list of good trailers within the limits is read back |
| `Chunked.ReadTrailers` | src/http.cpp:461-477 | the trailer loop returns what the trailer section of the incoming bytes decodes to |
| `Chunked.ReadChunkHeader` | src/http.cpp:441-459 | the size line, without any extension, or its error, over-long lines included |
| `Chunked.ReadChunkData` | src/http.cpp:479-499 | the data of one chunk and its line break, or the error for a missing one or for the limit; a size whose sum with the bytes read wraps is refused all the same unless its sum with the line break wraps too |
| `Chunked.SizeCheckExactly` | src/http.cpp:479-489 | the `size_t` sum of the size check decides as the true sum would if and only if it does not wrap, and the second sum then does not wrap either; two below the modulus is a size that passes |
| `Chunked.ReadChunk` | src/http.cpp:440-500 | one turn of the loop: the next chunk of the incoming bytes, or the last one |
| `Chunked.ReadChunkedBody` | src/http.cpp:414-501 | whatever the fragmentation, the reader's result, trailers, error and the bytes left are what the incoming bytes decode to |
| `HttpHeaders.ParseContentLength` | src/http.cpp:107-131 | the loop over duplicate headers agrees with the specification on every header list |
| `HttpHeaders.ContentLengthMeaning` | src/http.cpp:107-131 | a length is announced exactly when there is one and every such header announces it |
| `HttpHeaders.HeaderContainsToken` | src/http.cpp:627-651 | whether some header of that name lists the token, in any case |
| `HttpHeaders.ParseTransferEncoding` | src/http.cpp:138-183 | the nested token loops agree with the specification on every header list |
| `HttpHeaders.EncodingMeaning` | src/http.cpp:138-183 | accepted are no coding at all and the single coding `chunked`, nothing else |
| `HttpHeaders.ParseExpect` | src/http.cpp:201-240 | any other token makes the expectation unsupported; else `100-continue` if listed |
| `HttpHeaders.FramingAgreement` | src/http.cpp:546-559 | whatever the caller's headers, the reader's parsers see exactly the framing, length and persistence the writer chose, without conflict, and the caller's expectation |
| `HttpHeaders.PreparePreservesOthers` | src/http.cpp:827-836 | preparing the headers changes no header the writer does not own, nor their order |
| `HttpMessages.ReadHead` | src/http.cpp:936-1020 | reads until the buffer starts with a whole head and consumes exactly it; a clean end only if nothing was buffered and nothing came; bytes that end too soon and bytes that reach the limit without an answer give their own errors; bytes the parser rejects give its error if they were buffered whole, and seen in pieces, where the parser first waits for the blank line, that error or the one for the end or the limit |
| `HttpMessages.ReadBody` | src/http.cpp:986-997 | the body the frame announces, whatever the fragmentation |
| `HttpMessages.FramedExactly` | src/http.cpp:955-970 | a body is chunked exactly for the single coding `chunked` and no length, of `n` bytes exactly for no coding and nothing but that length, absent exactly for neither; all else is refused, and responses are framed alike (section 6.3 of RFC 9112) |
| `HttpConnection.Connection.ReadRequest` | src/http.cpp:918-1021 | reads the request the bytes start with, writes the interim response it is owed and nothing else, and leaves exactly the bytes after it; truncated and oversized heads give their errors, rejected ones one of two |
| `HttpConnection.Connection.ReadResponseImpl` | src/http.cpp:1057-1164 | reads the response the bytes start with, or the first final one when interim responses are skipped, with the errors of its head and body |
| `HttpConnection.Connection.ReadResponse` | src/http.cpp:1023-1040 | a prefetched response is handed out once, before anything else is read |
| `HttpConnection.Connection.WriteRequest` | src/http.cpp:1166-1234 | the head, and the body exactly when the client does not wait or has read a 100; any other response read while waiting is kept for the next read |
| `HttpConnection.Connection.WriteResponse` | src/http.cpp:1236-1287 | the head, with the standard phrase for an empty reason, and the body exactly when the status and the request method allow one |
| `HttpExchange.ReadRequests` | src/http.cpp:1401-1412 | requests laid end to end, fixed and chunked, come out one by one, each consuming exactly its own bytes, and the stream ends cleanly only when nothing is left |
| `HttpExchange.FirstOfPipeline` | src/http.cpp:932-1021 | the first request of a pipeline is read whole and leaves the rest of it |
| `HttpExchange.RequestReadBack` | src/http.cpp:1166-1234 | a written request is read back with method, target, body, trailers, framing and persistence, if and only if it is not chunked with an empty body |
| `HttpExchange.ResponseReadBack` | src/http.cpp:1236-1287 | for final statuses and the same request method the reader takes a body exactly when one was written and gets the response back, with the standard phrase for an empty reason, if and only if it is not an empty body sent chunked |
| `HttpExchange.WaitingAgreement` | src/http.cpp:974-985 | the client holds its body back exactly when the server answers the head with an interim response (section 10.1.1 of RFC 9110) |
| `ContinueAgreement.EveryRequestAgreed` | src/http.cpp:1194-1233 | for any list of requests within the reader's limits, client and server agree on waiting, asking and the bytes of every body if and only if none is a chunked request with an empty body |
| `ContinueAgreement.TakenExactly` | src/http.cpp:986-997 | the server takes all body bytes sent, except five of an empty chunked body |
| `ContinueAgreement.AlikeExactly` | src/http.cpp:1194-1233 | the same for one request, with waiting and asking equal in every case |
| `ContinueAgreement.EmptyChunkedStrays` | src/http.cpp:1401-1431 | behind the first chunked request with an empty body, a run in which the next request's first and last message answers none |
| `ExpectContinue.NoDeadlock` | src/http.cpp:1023-1055 | if both sides see every request alike, and a waiting request starts only with no response left to read, never do both sides wait with nothing on its way |
| `ExpectContinue.BodyAfterContinue` | src/http.cpp:1304-1343 | no byte of a body held back goes out before its own 100 was read |
| `ExpectContinue.ReturnedInOrder` | src/http.cpp:1023-1040 | under the same two conditions the k-th read returns the response to the k-th request; one read ahead is returned by exactly one later read |
| `ExpectContinue.HearsItsOwn` | src/http.cpp:1212-1227 | under the same two conditions the first message a waiting client hears is about its own request |
| `ExpectContinue.UndisciplinedCrosses` | src/http.cpp:1212-1227 | waiting behind an unread response always leaves an older response to be heard first |
| `ExpectContinue.StaysCrossed` | src/http.cpp:1212-1227 | whatever the server does next this stays so, and the client then withholds the body |
| `ExpectContinue.PipelinedWaitDeadlocks` | src/http.cpp:1212-1227 | for any two such requests, a run that ends with both sides waiting |
| `ExpectContinue.StrayAnswer` | src/http.cpp:1401-1431 | where the server takes fewer bytes than the client sends, a run in which it reads the rest as a head, refuses it and closes, so that the next request hears an answer to none |
| `Semaphore.StepKeeps` | include/corouv/async_semaphore.h:31-81 | every step of every thread keeps the invariant |
| `Semaphore.Conservation` | include/corouv/async_semaphore.h:31-81 | initial plus released permits equal free permits plus permits taken, in every run |
| `Semaphore.NoPermitBesideWaiters` | include/corouv/async_semaphore.h:222-253 | while `_mu` is free, a free permit means an empty queue |
| `Semaphore.GrantsFollowTheQueue` | include/corouv/async_semaphore.h:47-81 | grants follow enqueue order, and only cancelled waiters are skipped |
| `Semaphore.OneOutcome` | include/corouv/async_semaphore.h:99-149 | a waiter is never both granted and cancelled and is resumed at most once |
| `Semaphore.NoLostWakeup` | include/corouv/async_semaphore.h:165-187 | at rest, whoever is still suspended is queued and there is no permit for it |
| `Semaphore.LeakExactly` | include/corouv/async_semaphore.h:157-205 | over every run: an acquire ends by throwing with its permit taken if and only if its slot was cancelled behind the check of `await_ready` and before it finished on the fast path |
| `Semaphore.FastPathLeak` | include/corouv/async_semaphore.h:188-205 | such runs exist with the cancellation before and after `try_acquire` |
| `Semaphore.ThrowsOnlyWhenCancelled` | include/corouv/async_semaphore.h:188-205 | an acquire throws only if its slot was cancelled; the branch for a failed acquire without a cancellation is never taken |
| `Semaphore.ReleaseAlone` | include/corouv/async_semaphore.h:47-81 | the loop of `release`, undisturbed, is a run of the machine and grants the oldest live waiters, as many as there are permits for |
| `Mutex.StepRefines` | include/corouv/async_mutex.h:67-75 | each step of the mutex is that step of a semaphore |
| `Mutex.Refines` | include/corouv/async_mutex.h:100-131 | every run of the mutex is a run of a semaphore with one permit |
| `Mutex.OneOwner` | include/corouv/async_mutex.h:100-131 | ownerships granted minus unlocks is 1 when locked and 0 otherwise |
| `Mutex.UnlockedMeansNoWaiters` | include/corouv/async_mutex.h:271-302 | while `_mu` is free, an unlocked mutex has nobody queued |
| `Mutex.HandsOverInOrder` | include/corouv/async_mutex.h:100-131 | the lock is handed over in enqueue order, skipping only cancelled waiters |
| `Mutex.NoOvertaking` | include/corouv/async_mutex.h:67-75 | while somebody is queued, a newcomer gets the lock on neither path and queues behind everybody |
| `Mutex.OneOutcome` | include/corouv/async_mutex.h:149-199 | a waiter is never both granted and cancelled and is resumed at most once |
| `Mutex.LeakExactly` | include/corouv/async_mutex.h:207-213 | a lock attempt throws with the lock taken exactly in the window of the semaphore |
| `Mutex.LostForEver` | include/corouv/async_mutex.h:207-262 | after that, as long as only those unlock who were given the lock, it stays locked and nobody is given it again, in every continuation |
| `AsyncQueue.PopsAreAPrefix` | include/corouv/async_queue.h:32-121 | in every interleaving, what was pushed is what was popped followed by what is queued |
| `AsyncQueue.WithinCapacity` | include/corouv/async_queue.h:22-31 | a bounded queue never exceeds its capacity |
| `AsyncQueue.UnderflowUnreachable` | include/corouv/async_queue.h:59-78 | the branch that reports an internal underflow is never taken |
| `AsyncQueue.ElementsBalance` | include/corouv/async_queue.h:59-78 | in every run the elements queued are the free item permits, the releases owed, the pops on their way and the pops that leaked |
| `AsyncQueue.CapacityBalance` | include/corouv/async_queue.h:32-51 | in every run the capacity is the elements queued, the free slots, the releases owed, the pushes on their way and the pushes that leaked |
| `AsyncQueue.SuspendedBesideLeaks` | include/corouv/async_queue.h:59-78 | at rest a consumer is suspended beside exactly as many elements as pops have leaked, so beside an empty queue if none has |
| `Executor.RunsInOrder` | src/uv_executor.cpp:31-69 | functions run in acceptance order and none runs twice |
| `Executor.WakeupOutstanding` | src/uv_executor.cpp:31-43 | a non-empty queue has a wakeup outstanding or about to be sent |
| `Executor.PendingCounts` | src/uv_executor.cpp:45-69 | the counter is what is queued plus what is swapped out and not yet subtracted, never below zero |
| `Executor.NothingStranded` | src/uv_executor.cpp:31-69 | at rest every accepted function has run |
| `TimerOp.AtMostOnce` | src/uv_executor.cpp:175-241 | in every order of start, expiry, cancellation and rejection, the callback runs at most once and the handle is closed at most once, only if started |
| `TimerOp.ExactlyOnceWhenDone` | src/uv_executor.cpp:223-241 | once a completing event has been processed, the callback has run exactly once and a started timer is closed exactly once |
| `TimerOp.DirectPath` | src/uv_executor.cpp:243-278 | already cancelled when scheduled: run by the executor or dropped with it, and no timer |
| `TaskGroup.DrainedIffIdle` | include/corouv/task_group.h:143-172 | outside `finish`, `drained` is set exactly when nothing is pending, and `pending` counts the unfinished tasks |
| `TaskGroup.SignaledHoldsNoWaiter` | include/corouv/event.h:129-153 | a signalled event holds no waiter |
| `TaskGroup.RegisterSuspends` | include/corouv/event.h:86-107 | registering never finds the event set once it was found unset, so a cancellation between installing the handler and registering resumes the wait once |
| `TaskGroup.WaitSpansIdle` | include/corouv/task_group.h:97-115 | a wait that completes normally spans a moment with no accepted task unfinished |
| `TaskGroup.NobodyStranded` | include/corouv/event.h:42-60 | with the loop free and the group idle, nobody is left suspended except a cancelled wait being woken |
| `TaskGroup.FirstFailureKept` | include/corouv/task_group.h:143-172 | the error kept is the first failure that is not a signal after cancellation |
| `CodecStream.Stream.Compact` | src/transport.cpp:569-580 | compaction leaves the backlog as it is |
| `CodecStream.Stream.FeedBacklog` | src/transport.cpp:582-598 | for every codec, bytes accepted followed by the backlog stay the bytes received |
| `CodecStream.Stream.FeedBytes` | src/transport.cpp:600-621 | bytes just read go behind the backlog, and none is lost, repeated or reordered |
| `CodecStream.Stream.FeedDirect` | src/transport.cpp:612-621 | what the codec will not take becomes the backlog |
| `CodecStream.Stream.Flush` | src/transport.cpp:691-705 | bytes sent are the codec's output in order; the pass-through codec is emptied within a bounded number of turns |
| `CodecStream.Stream.ReadSome` | src/transport.cpp:707-754 | conservation at every exit; the plaintext returned is exactly what the codec gave; with the pass-through codec on an open socket it never fails, returns within a bound set by what is left to flush, and an empty read means everything received was handed out |
| `CodecStream.Stream.WriteAll` | src/transport.cpp:760-806 | a write that returns has passed its data to the codec exactly once, any other a prefix of it; with the pass-through codec on an open socket it returns within a bound set by the data and what is left to flush, and the peer gets exactly the data |
| `CodecStream.Stream.RunHandshake` | src/transport.cpp:623-689 | conservation at every exit; the pass-through codec reads nothing, never fails and completes within a bound |
| `CodecStream.Stream.PassesThrough` | src/transport.cpp:495-519 | with the pass-through codec, plaintext read is a prefix of what was received and plaintext written is what was sent, then what is to be flushed |
| `Form.UrlEncode` | src/http.cpp:660-684 | the loop computes the encoding byte by byte |
| `Form.UrlDecode` | src/http.cpp:686-731 | the loop computes the decoding or its error |
| `Form.DecodeInverts` | src/http.cpp:686-731 | for every byte string, decoding the encoding returns it (section 5 of the WHATWG URL Standard) |
| `Form.DecodesExactly` | src/http.cpp:711-723 | decoding fails exactly when some percent sign does not start an escape |
| `Form.ParseFields` | src/http.cpp:733-768 | the loop over ampersands agrees with the specification, errors and limit included |
| `Form.SerializeFields` | src/http.cpp:785-800 | the loop writes `name=value` pairs with ampersands between them |
| `Form.FieldsReadBack` | src/http.cpp:733-768 | parsing a serialization returns the same list, empty names and values included, exactly when it is within the limit |
| `Multipart.Unquote` | src/multipart.cpp:43-56 | the loop drops the quotes and the escapes, or trims |
| `Multipart.QuoteReadBack` | src/multipart.cpp:43-56 | quoting is undone exactly when no backslash stands before another character |
| `Multipart.DecodePercent` | src/multipart.cpp:58-93 | the loop decodes every escape or reports a malformed one |
| `Multipart.ParseDisposition` | src/multipart.cpp:95-152 | name and file name from the parameters in order, the extended file name winning |
| `Multipart.ParseHeadersBlock` | src/multipart.cpp:154-183 | the fields of a block line by line, or the error for a line without a colon |
| `Multipart.BoundaryFromContentType` | src/multipart.cpp:187-226 | the boundary parameter behind the media type, if any |
| `Multipart.ParsePart` | src/multipart.cpp:250-286 | one part at the cursor and the cursor behind the next boundary, or the first error |
| `Multipart.Parse` | src/multipart.cpp:228-299 | the whole parser agrees with the specification on every input, errors and limits included |
| `Multipart.SerializePart` | src/multipart.cpp:322-353 | one part: boundary, its fields without duplicates of the two special ones, body |
| `Multipart.Serialize` | src/multipart.cpp:316-359 | the whole printer, with the error for an empty boundary |
| `MultipartRoundTrip.BoundaryReadBack` | src/multipart.cpp:312-314 | the boundary is found again in the content type exactly when it is `;`-free, trimmed and not quoted |
| `MultipartRoundTrip.DispositionReadBack` | src/multipart.cpp:326-333 | name and file name are read back, quotes inside them included |
| `MultipartRoundTrip.DispositionExactly` | src/multipart.cpp:95-152 | and that exactly when neither holds a `;` or a backslash before another character |
| `MultipartRoundTrip.FindDelimiter` | src/multipart.cpp:277-282 | the first delimiter behind a body is the one written, exactly when the body contains none |
| `MultipartRoundTrip.FormReadBack` | src/multipart.cpp:228-299 | parsing a printed form returns every part's name, file name, content type, other fields and body, if and only if the form is within the limits and no body contains the delimiter |
| `MultipartRoundTrip.CanonicalWritten` | src/multipart.cpp:340-349 | a parsed part prints as the part it came from |
| `Router.SplitPath` | include/corouv/web.h:111-133 | the index loops return the non-empty segments |
| `Router.SplitJoined` | include/corouv/web.h:111-133 | splitting two paths joined by a slash is splitting each |
| `Router.SplitOfJoin` | include/corouv/web.h:111-133 | splitting undoes joining |
| `Router.MatchRoute` | include/corouv/web.h:141-224 | the loops, with their early exits, agree with matching segment by segment |
| `Router.MatchedExactly` | include/corouv/web.h:141-224 | without a wildcard a match is exactly: enough segments, and each is equal or a parameter |
| `Router.MatchFills` | include/corouv/web.h:198-213 | putting the captured values back into the pattern gives the matched segments |
| `Router.StripMatchedPrefix` | include/corouv/web.h:226-243 | the loop rebuilds the path without the leading segments |
| `Router.StrippedIs` | include/corouv/web.h:226-243 | stripping drops exactly the leading segments and leaves the query string alone |
| `Router.MountFlattens` | include/corouv/web.h:581-591 | for a wildcard-free mount point, matching it, stripping, then matching the inner pattern succeeds exactly when the joined pattern matches, with the concatenated parameters and an unchanged query string |
| `Router.WildcardMount` | include/corouv/web.h:176-197 | what a mount point ending in a wildcard does instead |
| `Router.Dispatch` | include/corouv/web.h:652-714 | the first route that matches path and verb handles the request, through any depth of mounts; else the allowed verbs, else not found |
| `Router.AllowedListed` | include/corouv/web.h:656-663 | every verb of a route matching the path is offered |
| `Router.AllowedOffered` | include/corouv/web.h:671-675 | nothing else is offered |
| `Router.AllowedOnce` | include/corouv/web.h:656-663 | no verb is offered twice, in any case |
| `Router.HandledAsFlat` | include/corouv/web.h:581-591 | a request handled through any depth of mounts gets the parameters of the joined pattern, and its query string is untouched |
| `Router.FlatExactly` | include/corouv/web.h:652-714 | with wildcard-free mount points, nested dispatch picks the handler and parameters of the first route of the flat table, or none if there is none, if and only if it is not stuck in a mount while some flat route accepts the request |
| `Router.MountShadows` | include/corouv/web.h:665-684 | a matching mount without routes answers not found although the flat table has a route for the request |
| `Placeholders.CountQuestions` | include/corouv/sql/orm.h:168-176 | the loop counts the question marks |
| `Placeholders.RenderQuestions` | include/corouv/sql/orm.h:198-219 | the loop numbers them consecutively from the start index |
| `Placeholders.RenderPreserves` | include/corouv/sql/orm.h:198-219 | for every text and backend, numbering preserves its meaning if and only if every `?` stands in code, starts a token and touches no digit or word behind it, and no `$` before a digit starts one |
| `Placeholders.TouchingWord` | include/corouv/sql/orm.h:198-219 | a `?` that touches a word before or behind it is never preserved, whatever stands around it |
| `Clauses.QuestionPlaceholders` | include/corouv/sql/orm.h:109-118 | that many question marks between commas |
| `Clauses.Combine` | include/corouv/sql/orm.h:358-404 | the loop joins the non-empty clauses in parentheses and their parameters in order |
| `Clauses.MixedExactly` | include/corouv/sql/orm.h:371-384 | combining sound clauses fails exactly when two of them have parameters and differ in rewrite mode |
| `Clauses.ClauseMeans` | include/corouv/sql/orm.h:255-412 | every clause tree over plain columns is built exactly when it is well formed, with as many `?` as parameters, and says what the tree says; plain columns have no `?` and no placeholder of PostgreSQL's and leave nothing open |
| `Clauses.OpenColumn` | include/corouv/sql/orm.h:255-266 | on every backend, a comparison on a column free of placeholders is sound if and only if the column leaves no literal, quoted name or comment open |
| `Statements.WritesClause` | include/corouv/sql/orm.h:545-561 | an appended clause continues the numbering where the statement stood and adds to its meaning exactly what the clause says |
| `Statements.SelectMeans` | include/corouv/sql/orm.h:563-603 | on every backend the statement says its clauses, each placeholder bound to its own parameter |
| `Statements.TreesSelect` | include/corouv/sql/orm.h:563-603 | so for any two clause trees, whatever the backend |
| `Statements.UpdateWhere` | include/corouv/sql/orm.h:647-683 | the assembled statement or the first error |
| `Statements.UpdateMeans` | include/corouv/sql/orm.h:647-683 | on every backend it says its assignments and its clause, SET values before WHERE parameters; it is refused exactly for an empty table, no columns, a count mismatch, or a missing clause that is required |

## Left out

- Timeouts, clocks and deadlines everywhere, including the handshake deadline.
- picohttpparser: a head parser is any function whose answer depends on the head alone and never comes early; a non-zero `last_len` makes it wait for the blank line before anything else.
- BearSSL, certificates and keys: a codec other than the pass-through one answers arbitrarily.
- Chunked.ReadTrailers: whether a trailer line over the limit is refused depends on what happens to be buffered with the lines before it; if it is accepted, the result is still what the bytes decode to without the limit.
- Chunked.ReadChunkData: stops where the chunk size plus the bytes read and the chunk size plus two both wrap `size_t`, which two sizes do; what the source then hands out and reads again is not modelled. Any other wrapping size gives one of two errors, depending on what is buffered.
- Chunked.ReadChunk: leaves open what its two parts leave open.
- Chunked.ReadChunkedBody: leaves open an over-long line and a size whose sum with the bytes read wraps, as above.
- HttpMessages.ReadBody: leaves open what reading a chunked body leaves open.
- HttpMessages.ReadHead: a head longer than the limit is accepted or refused depending on what is buffered; rejected bytes that arrive in pieces give one of two errors; a parser that takes back a rejection is not covered.
- HttpConnection.Connection.ReadRequest: leaves open a head over the limit, an over-long line and a wrapping chunk size.
- HttpConnection.Connection.ReadResponseImpl: leaves open a head over the limit, an over-long line and a wrapping chunk size.
- The variants of reading and writing that take a body sink or a body source from the caller; the loops underneath are modelled with the pieces as a list.
- The table of `reason_phrase`, which is a parameter; `format_host_header`, `Client` and `Server` wiring, accept loops, URLs, `fetch`.
- Coroutine frames destroyed while suspended, executors that refuse `schedule`, executor shutdown, and exceptions from allocation.
- The coroutine primitives are step machines on values rather than classes, because a class method cannot be interrupted between its steps; `Semaphore.ReleaseAlone` ties the loop of `release` to the machine. Memory ordering weaker than sequential consistency is not modelled.
- CodecStream.Stream.ReadSome: like the other stream loops it is observed for a given number of turns, because an arbitrary codec may keep it going for ever; what is promised holds whenever the observation stops.
- CodecStream.Stream.RunHandshake: says nothing about when a TLS handshake completes, only that nothing is lost on the way.
- `close_notify`, `read_until_eof` and shutting down one direction of a stream.
- `parse_request` and `parse_form_urlencoded_request`, which only look up a header first; finding a form value by name.
- MultipartRoundTrip.FormReadBack: names and file names with `;` or inner backslashes, which `DispositionExactly` shows are lost, and with line breaks are outside its premises; the printer does not escape them.
- Router.Dispatch: without middlewares and custom not-found handlers; a handler is an identifier or a mounted router, and registration is not modelled.
- Statements.SelectMeans: the column list, joins, GROUP BY, ORDER BY, LIMIT and OFFSET texts come in ready-made.
- Placeholders.RenderPreserves: SQLite's own `?NNN`, `:name`, `@name` and `$name`, MySQL's `/*! */` comments and settings that change quoting, and literals continued over lines are not read; a number runs into a word as it does since PostgreSQL 15.
- INSERT, DELETE, the by-primary-key forms, relation joins, and raw clauses that keep their own placeholders.
- Drivers, name resolution, sockets, files, polling and blocking calls.
