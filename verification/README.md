# Verification of MyTInyWebServer

A Dafny 4.11 model of MyTInyWebServer, an HTTP server built from an epoll loop, a thread pool, growing
byte buffers and a MySQL connection pool. `dafny verify dfyconfig.toml` checks all of it. Source files
are cited by their path in the repository.

| file | what it models |
|---|---|
| `Dispatcher.dfy`, `DispatcherProofs.dfy`, `DispatcherTheorems.dfy`, `DispatcherRest.dfy`, `DispatcherWitnesses.dfy` | the main thread, epoll's one-shot registrations, the queue of tasks and the handlers, as a step system; its invariant; what holds in every reachable state; how it comes to rest; runs that lose a connection or a descriptor |
| `Handlers.dfy`, `HandlerRuns.dfy` | `_Process`, `_FunRead`, `_FunWrite` as imperative code on a connector, and the runs of dispatcher steps that do the same |
| `Connector.dfy`, `Gather.dfy` | `HttpConnector`: the read loop, request processing, the gather write |
| `Buffer.dfy` | the compacting, growing byte queue |
| `Request.dfy`, `RequestLaws.dfy`, `ServedRequests.dfy`, `Form.dfy` | the request parser and path handling, what they make of printed and of arbitrary input, what is served and what a login compares, form decoding |
| `ThreadPool.dfy`, `BlockQueue.dfy`, `SqlPool.dfy` | the three monitors: classes for their critical sections and a step system over all interleavings |
| `Trim.dfy`, `ByteOrder.dfy` | the trailing-space trimmers and little-endian loads and stores of the bundled headers |
| `Bytes.dfy`, `Counting.dfy` | octets; counts and sums over sequences |

## How it is modelled

Objects whose methods change their fields are classes; each method is proved against a function of the
old state, and the laws are lemmas about those functions. Where several threads act, each critical
section or each access of a thread to a connector is one step, a run is any sequence of enabled steps,
and the kernel, the peers and the scheduler choose freely: `accept` may return any descriptor that is
not open, `epoll_wait` any batch of armed descriptors, `readv` and `writev` any result they can have,
and every wait may end spuriously. The `Server` of the dispatcher carries the history of each client
(what arrived, what was parsed, the responses, the octets sent) so that whole-run properties are
invariants.

A failed `assert` ends the process, and a write onto the terminator of a string or past it leaves defined
behaviour; both are outcomes with no state after them (`Tripped`, `OutOfRange`, `StringOverrun`, `AssertTripped`, `Aborted`), not preconditions. Octets are integers from 0 to 255, `size_t`
arithmetic is unbounded, and the narrowings that matter are written out: `Writeable_Size()` to `int`, the
16-bit `user_cnt`, `char` in form decoding, every narrowing of the byte-order routines.

## Where the code departs from its intent

The model follows the code. For each departure there is a lemma with the exact condition under which
the intended property holds, and most have a concrete failing input.

- `Read_FD` appends the whole overflow from both spill arrays. It appends what was received exactly
  when that fits the writeable space (`ReceivedIntact`, `ReceivedCorrupted`); so a burst of any pieces is
  read intact exactly when all of it fits (`ReadIntactIff`), and over any run of operations the buffer is a
  plain queue exactly when every read fits (`RefinesQueue`). What an overflow leaves is known octet by octet
  (`ReceivedExactly`): up to 65535 octets of it, what was received still comes first (`StreamComesFirst`). A fresh read buffer has 1024 octets.
- `Write` takes a -1 from `writev` for progress. It comes back untouched, as `_FunWrite` expects, exactly
  when nothing is left to send; otherwise the assert of `Update_Readp` fails (`FailedWritevIff`,
  `FailedWritevTrips`). The re-arming branch of `_FunWrite` is therefore dead (`Handlers.FunWrite`). The
  dispatcher's steps admit the intended return too (`WriteError`), so its invariants cover more runs than
  the code has: a connection can give up after a fatal error, or be armed for output again, in addition
  to what the code does.
- `Writeable_Size()` is narrowed to `int`. Taking 0 for completion is right for every schedule exactly
  when header and file are shorter than 2^32 octets (`CompletionTruthfulIff`).
- After the last header `_Read_Header_Line` is followed by a test for at most two octets left. A printed
  message is recovered exactly when its body has at least three octets, without a '%' cut short if it is a
  form, or is dropped and what is kept from before is what it would have left (`RecoveredIff`); the assert fails on a body of one octet and on a message with
  neither header nor body (`PrintedTripsIff`), and on arbitrary input exactly when it is not framed
  (`AssertHoldsIff`).
- `%XX` is not decoded. Form decoding undoes encoding exactly when nothing was escaped
  (`DecodingUndoesEncodingIff`, `EscapeNotDecoded`); what an escape leaves is `EscapeLeaves`. A '%' with fewer than two octets after it makes the
  decoder write onto the terminator of the body or past it; it stays inside exactly when there is none
  (`DecodedIff`, `CutPercentOverruns`). So parsing ends the process exactly on input that is not framed, and
  leaves defined behaviour exactly on form posts with such a '%' (`ParsingBreaksIff`, `CutFormOverrunsIff`).
- `Init` keeps headers, form and body of earlier requests, and neither `Close` nor a new client on the
  descriptor clears them. The headers are the message's own exactly when it names every one kept
  (`HeadersAreTheMessagesIff`); else, for instance, a POST without Content-Type is taken for a form
  (`OldHeaderMakesAForm`). The form is the body's own exactly when the body has every key kept, the last one
  with the same value (`OldFormVanishesIff`, `OldFieldShows`). The pairs of a plain form are all added
  exactly when the last one is new and not empty, or is there already (`PlainFormIff`); a form sent twice
  keeps the first value of its last field (`LastFieldGoesStale`), and a login without a password leaves an
  empty one, which stays until a form gives another in a pair before its last (`MissingPasswordSticks`,
  `MissingPasswordStaysIff`).
- The page for bad requests is never served: `Read_Buff` returns before `_Handle_Path`, so a rejected request
  keeps the path resolved for the one before it (`BadRequestKeepsOldPath`). The default suffix is never
  taken, since the root directory has dots in its name (`SuffixNeverDefaults`).
- `clear()` wakes no producer (`ClearKeepsAccountIff`, `ClearStrandsProducer`); `pop_front` notices that the
  queue is closed only after a wait (`FreshPopWaitsIff`, `ClosedQueueLeavesAsleep`,
  `LatePopFallsAsleep`).
- A descriptor accepted at the client limit is never closed or served (`AcceptAtLimitLeaks`,
  `LeakedForEver`), and there is a run that gets there (`ADescriptorLeaks`). A connection whose write handler
  gives up stays open and counted for ever (`StalledForEver`); no connection is lost along a run exactly
  when no handler gives up in it (`NoConnectionIsLost`), and a run of 15 steps, in which a client
  asks for the home page, loses one (`WritevZeroLosesConnection`).
- `_SetNoBlock` asserts that a client's descriptor is not 0, which `accept` can return if the process starts
  without standard input; the process then ends, so no step serves descriptor 0.

## Model

| member | source | states |
|---|---|---|
| DispatcherTheorems.OneOwner | src/webserver.cpp:133-216 | in every reachable state the right to act on a connector is in at most one of epoll, batch, queue and handlers; in none for a closed one; in exactly one for a live one unless its handler gave up |
| DispatcherTheorems.NoConnectionIsLost | src/webserver.cpp:186-210 | at the end of a run every live connection has exactly one token if and only if at no step of it writev returned 0, or failed fatally, with octets left |
| DispatcherWitnesses.WritevZeroLosesConnection | src/webserver.cpp:186-210 | for every response there is a run after which a live connection has no token: a client asks for the home page, in a request that parses to its end whatever came before it, and one writev returns 0 |
| ServedRequests.HomeRequestParses | src/httprequest.cpp:11-63 | that request is framed, and its parse completes |
| DispatcherTheorems.NoRace | src/webserver.cpp:142-216 | no two threads are ever both about to act on one connector: not two handlers, nor a handler and the main thread's Close or Init |
| DispatcherTheorems.EventsNameClients | src/webserver.cpp:236-252 | the asserts of the event loop hold: each client event names a known, live connector |
| DispatcherTheorems.Alternation | src/webserver.cpp:150-202 | in every reachable state, an armed connection has had everything that arrived parsed; it is armed for input exactly when every response was sent whole, and for output exactly when something is left to send |
| DispatcherTheorems.WritersHaveSomethingToSend | src/webserver.cpp:186-210 | in every reachable state, a connection inside `_FunWrite` is live, has nothing unread and something left to send |
| DispatcherTheorems.NoResponseIsLost | src/httpconnector.cpp:89-134 | what was sent to a client followed by what is unsent is its responses in order; what arrived is what was parsed followed by what is unread |
| DispatcherTheorems.ResponsesDoNotOverlap | src/httpconnector.cpp:111-134 | when a response is built, all earlier ones have been sent to their last octet |
| DispatcherTheorems.ReusedConnectorIsClean | src/httpconnector.cpp:20-42 | a connector reused for a new client on the same descriptor is closed and has nothing unread or unsent, although Close clears no buffer |
| DispatcherTheorems.UserCountExact | src/httpconnector.cpp:20-42 | user_cnt is the number of live connectors in every reachable state, every step changes both alike by at most one, and 16 bits never wrap |
| DispatcherTheorems.HangUpClosesDescriptor | src/webserver.cpp:142-148 | in every reachable state, the main thread's step on a hang-up closes the client's descriptor, which was open, and unregisters it |
| DispatcherTheorems.OpenDescriptorsAre | src/webserver.cpp:106-148 | after any run a descriptor is open if and only if it was at the start, or has a live connector, or was accepted at the client limit during the run |
| DispatcherWitnesses.ADescriptorIsReused | src/webserver.cpp:106-148 | after a client hung up with its response unsent, its descriptor is closed, is accepted again, and the new client finds nothing of the one before |
| DispatcherTheorems.TasksInOrder | include/threadpool.hpp:17-56 | over any run, the tasks queued at the start followed by those dispatched are those that workers took up, in that order, followed by those still queued |
| DispatcherTheorems.AcceptAtLimitLeaks | src/webserver.cpp:111-139 | an accepted descriptor, other than a 0 that trips the assert of `_SetNoBlock`, gets a live connector, and the accept loop goes on, exactly when fewer than 65535 users are counted; it is open either way |
| DispatcherTheorems.LeakedForEver | src/webserver.cpp:124-128 | an open descriptor without a live connector is never closed nor reused, along any run |
| DispatcherWitnesses.ADescriptorLeaks | src/webserver.cpp:111-130 | the limit is reached by a run, from a server with five descriptors open, and the descriptor accepted there is neither closed nor served along any run from it |
| DispatcherTheorems.StalledForEver | src/webserver.cpp:196-206 | a connection whose write handler returned without re-arming stays live, open and out of everyone's reach along any run |
| DispatcherTheorems.RunKeepsInv | src/webserver.cpp:218-255 | the invariant (tokens, descriptors, buffers by place, client histories) holds along every run |
| DispatcherProofs.StepKeepsInv | src/webserver.cpp:106-255 | each step of the main thread, the kernel and the handlers keeps the invariant |
| DispatcherProofs.HolderIsAlone | src/webserver.cpp:160-210 | a handler's connector is live, not armed, in no pending event, in no queued task and in no other handler |
| DispatcherProofs.HangUpIsAlone | src/webserver.cpp:236-240 | the same for the main thread about to close a connection |
| DispatcherProofs.AcceptKeepsInv | src/webserver.cpp:106-140 | a new client keeps the invariant, at the limit and below it |
| DispatcherProofs.ProcessKeepsHistory | src/httpconnector.cpp:89-136 | a new response continues the client's stream because nothing of the last one is unsent |
| DispatcherRest.RestIsReached | src/webserver.cpp:150-255 | without new events, clients and octets, no run is longer than a measure of the tokens on their way |
| DispatcherRest.EveryoneIsArmed | src/webserver.cpp:150-210 | when nothing is left to do, every live connection whose handler did not give up is armed in epoll |
| Handlers.Process | src/webserver.cpp:150-158 | re-arms for input if nothing was unread; else answers exactly the request the unread bytes parse to and re-arms for output, or does not return exactly when that parse breaks; connector and history are what the dispatcher's step makes of them |
| Handlers.FunRead | src/webserver.cpp:160-176 | from any connector, in step or not: never closes; fails to return exactly when what was read is not framed or is a form post with a '%' cut short; otherwise connector, history and direction of re-arming are those of the dispatcher's reads and its step of processing |
| Handlers.FunWrite | src/webserver.cpp:186-210 | the last result of writev decides: positive, all sent and armed for input; 0, left alone with the rest unsent; -1, the failed assert; connector and history are those after the dispatcher's writes; what was sent followed by what is left is what there was |
| HandlerRuns.FunReadIsARun | src/webserver.cpp:160-176 | in any state with a worker in the read loop, the steps for these octets can be taken, and lead to the connector that `_FunRead` leaves, with the worker about to re-arm for the same direction |
| HandlerRuns.WriteIsARun | src/httpconnector.cpp:55-87 | in any state with a worker in the write loop, the steps for these results of writev can be taken, and lead to processing, or to giving up after a 0 |
| HandlerRuns.FunWriteIsARun | src/webserver.cpp:186-210 | and, when all was sent, on through processing to the re-arming for input |
| HandlerRuns.ArrivedAllIsReadAll | src/httpconnector.cpp:44-53 | the read loop's buffer and the dispatcher's reads agree on what is unread |
| HandlerRuns.SentAllIsRun | src/httpconnector.cpp:55-87 | the segments after a run of writev results and the dispatcher's writes agree on what is unsent and what went out |
| Connector.HttpConnector.constructor | src/httpconnector.cpp:6-13 | not live, no descriptor, empty segments and 1024-octet buffers |
| Connector.HttpConnector.Init | src/httpconnector.cpp:20-29 | counts one more user modulo 2^16 and leaves buffers and segments as they are |
| Connector.HttpConnector.Close | src/httpconnector.cpp:31-42 | acts only on a live connector: counts one user less, drops the segments, keeps both buffers and the descriptor's number |
| Connector.HttpConnector.Read | src/httpconnector.cpp:44-53 | leaves in the read buffer what all readv results make of it; status is true exactly when the last result is 0 |
| Connector.ReadNeverAsksForClose | src/webserver.cpp:160-172 | Read never returns 0 with a false status |
| Connector.ReadIntactIff | src/httpconnector.cpp:44-53 | however the stream is cut up, Read delivers it unchanged if and only if all of it fits the writeable space at the call |
| Connector.StreamComesFirst | src/httpconnector.cpp:44-53 | if only the last piece overflows the writeable space, by at most one spill array, the stream comes whole and first, before old memory |
| Connector.FirstBurstComesFirst | src/httpconnector.cpp:44-53 | so does a first piece within that bound, whatever follows |
| Connector.MessageSurvivesArrival | src/httpconnector.cpp:44-118 | any printed message arriving in any pieces that fits the empty read buffer is recovered field by field if and only if its body is one that survives: three octets or more, without a '%' cut short if it is a form, or a dropped one that what is kept makes up for |
| Connector.MissingPasswordSticks | src/httpresponse.cpp:120-121 | after a login without the field pwd, it is empty through any run of forms in which at most the last pair has that key, whatever its value |
| Connector.MissingPasswordStaysIff | src/httpresponse.cpp:120-121 | after the next form it is empty if and only if no pair before the last gives a password |
| Connector.HttpConnector.Process | src/httpconnector.cpp:89-136 | nothing happens on an empty read buffer; else the buffer is emptied and its whole capacity writeable, the request is what parser, path handling and login lookup make of it, and segments and write buffer hold header and file |
| Connector.HttpConnector.LookUp | src/httpresponse.cpp:120-121 | a login gets the values of the fields username and pwd, empty ones if they are missing |
| Connector.LoginFindsFields | src/httpresponse.cpp:120-121 | after it both fields are in the form, every field has the value it had, and a missing one of the two is empty |
| ServedRequests.LoginComparesWhatWasSent | src/httpresponse.cpp:111-121 | a form post to /login with an empty form before it leaves exactly its pairs, and the login gets the username and the password that were sent |
| ServedRequests.BobIsCompared | src/httprequest.cpp:136-193 | the octets of one such request, end to end: bob and x are compared |
| Connector.HttpConnector.HeadWriteBuff | src/httpresponse.cpp:26-47 | the write buffer holds the header block and nothing from before |
| Connector.HttpConnector.TakeResult | src/httpconnector.cpp:60-85 | what one writev result makes of segments and write buffer, and how the loop ends |
| Connector.HttpConnector.Write | src/httpconnector.cpp:55-87 | the segments after Write are those of the run of all writev results, and its three ways to end are told apart |
| Gather.StreamConserved | src/httpconnector.cpp:55-87 | for every schedule: sent ++ segment 0 ++ segment 1 is header ++ file, the write buffer holds segment 0, and finishing means everything was sent |
| Gather.ResumedStreamConserved | src/httpconnector.cpp:55-87 | the same across any number of calls that resume each other |
| Gather.TurnsBounded | src/httpconnector.cpp:58-85 | the octets remaining bound the number of writev calls |
| Gather.EndingTold | src/httpconnector.cpp:58-87 | the last result alone tells the ending: finished if positive, nothing sent if 0, failed assert if -1; all is sent if and only if finished |
| Gather.NarrowedIsInt | httpconnector/httpconnector.hpp:16 | Writeable_Size() is the 32-bit signed number congruent to the octets left |
| Gather.CompletionTruthfulIff | httpconnector/httpconnector.hpp:16 | the test Writeable_Size() == 0 means that everything was sent, for every schedule, if and only if header and file are shorter than 2^32 octets |
| Gather.PrematureCompletion | src/httpconnector.cpp:66-84 | at 2^32 octets or more some schedule stops as complete with octets unsent |
| Gather.FailedWritevIff | src/httpconnector.cpp:60-83 | a -1 comes back with the segments untouched if and only if Writeable_Size() is 0, and trips the assert otherwise |
| Gather.FailedWritevTrips | src/httpconnector.cpp:79-83 | one octet unsent and a -1: the assert fails |
| ByteBuffer.Buffer.constructor | src/buffer.cpp:4-5 | an empty buffer of the given size |
| ByteBuffer.Buffer.UpdateReadp | src/buffer.cpp:21-25 | drops a prefix of the readable octets |
| ByteBuffer.Buffer.ReleaseAllBuff | src/buffer.cpp:59-64 | empties and zeroes the buffer |
| ByteBuffer.Buffer.ShiftLeft | src/buffer.cpp:89-93 | the overlapping left shift keeps the readable octets and puts them at the start |
| ByteBuffer.Buffer.Resize | src/buffer.cpp:97 | a larger array keeps indices and readable octets |
| ByteBuffer.Buffer.Dilatation | src/buffer.cpp:85-99 | shifts if that frees enough, else grows; readable octets stay |
| ByteBuffer.Buffer.LengthGuard | src/buffer.cpp:102-107 | afterwards there is room, and the readable octets are the same |
| ByteBuffer.Buffer.Append | src/buffer.cpp:117-123 | the readable octets are the old ones followed by the new |
| ByteBuffer.Buffer.ReadFd | src/buffer.cpp:126-159 | the buffer after any readv result, with the length returned and status false exactly on failure |
| ByteBuffer.RefinesQueue | src/buffer.cpp:15-159 | over any run of operations the readable octets are those of a plain byte queue, before it and after each operation, if and only if every read fits the space there is when it happens |
| ByteBuffer.MemoryBound | src/buffer.cpp:85-123 | after any run the size is at most the larger of the initial size and twice the largest readable size met |
| ByteBuffer.GrowthIsNeeded | src/buffer.cpp:85-107 | growth happens only when compaction cannot fit the octets, and by no more than they need; octets that fit the writeable space move nothing |
| ByteBuffer.ReceivedIntact | src/buffer.cpp:126-159 | Read_FD appends exactly the octets received if and only if they fit the writeable space, whatever the spill arrays held |
| ByteBuffer.ReceivedExactly | src/buffer.cpp:126-159 | what one overflowing receive leaves, octet by octet: all that was received and as much of the old second array; or, over one array's length, what was received up to its end, what lies behind it, the rest, and old memory |
| ByteBuffer.ReceivedCorrupted | src/buffer.cpp:150-155 | one octet too many: it arrives followed by an octet of old stack memory |
| ByteBuffer.ClearedHasRoom | src/buffer.cpp:59-64 | after a release of everything the whole capacity is writeable |
| Request.SplitRequestLine | src/httprequest.cpp:72-90 | a match splits the line into three fields without spaces |
| RequestLaws.RequestPatternIff | src/httprequest.cpp:75-84 | a line matches the request pattern if and only if it is three space-free fields printed, and the fields are unique |
| RequestLaws.HeaderPatternIff | src/httprequest.cpp:105-116 | a line matches the header pattern if and only if it is a colon-free name, a colon and a one-line value; one space before the value is dropped |
| Request.FindCrlf | src/httprequest.cpp:20-25 | the first CRLF, or the end |
| Request.TurnsProgress | src/httprequest.cpp:18-63 | each turn shortens the input and never moves the phase back; a turn at the body is the last |
| Request.CompletedParseIsTotal | src/httprequest.cpp:18-63 | a completed parse leaves the buffer empty |
| Request.HttpRequest.Init | src/httprequest.cpp:3-9 | phase, code and both flags are reset; all else stays |
| Request.HttpRequest.ReadRequestLine | src/httprequest.cpp:72-90 | the three fields and the next phase on a match, nothing otherwise |
| Request.HttpRequest.ReadHeaderLine | src/httprequest.cpp:102-117 | stores the header on a match, else moves on to the body |
| Request.HttpRequest.ReadBodyLine | src/httprequest.cpp:119-134 | keeps the body and decodes it if it is a form post |
| Request.HttpRequest.HandleForm | src/httprequest.cpp:136-179 | the in-place loop runs past the end exactly when a '%' of the body is cut short, and otherwise leaves the body and the form the decoding function says |
| Request.HttpRequest.TakeTurn | src/httprequest.cpp:18-63 | the loop body takes one turn of the parser on request and buffer |
| Request.HttpRequest.TakeHeader | src/httprequest.cpp:40-51 | a header line and the test for at most two octets left, with its assert |
| Request.HttpRequest.TakeBody | src/httprequest.cpp:28-55 | the turn at the body releases the whole buffer and reads the body |
| Request.HttpRequest.HandlePath | src/httprequest.cpp:181-251 | path, code, flags and suffix are what the path function makes of them, for every result of stat |
| Request.HttpRequest.SelectForm | httpconnector/httprequest.hpp:30 | the value of a field, the form being unchanged; a missing one is put in, empty, and all others stay |
| Request.HttpRequest.ReadBuff | src/httprequest.cpp:11-70 | request, buffer and outcome are those of the whole parse, with the path handled if it completed |
| RequestLaws.ParsePrinted | src/httprequest.cpp:11-63 | the exact result of parsing any printed message after any earlier requests |
| RequestLaws.RestartForgets | src/httprequest.cpp:3-15 | what a parse left in phase, code and flags has no influence on the next one |
| RequestLaws.ParsingUndoesPrinting | src/httprequest.cpp:11-124 | parsing recovers method, path, version, headers (overlaid in order) and body, and empties the buffer |
| RequestLaws.RecoveredIff | src/httprequest.cpp:40-57 | any printed message is recovered if and only if its body has three octets or more, without a '%' cut short if it is a form, or is dropped and what is kept from before is what it would have left |
| RequestLaws.PrintedOverrunsIff | src/httprequest.cpp:119-179 | decoding a printed message writes past its body if and only if it is a form post of three octets or more with a '%' cut short |
| RequestLaws.HeadersAreTheMessagesIff | src/httprequest.cpp:102-110 | the headers after a parse are those of the message alone if and only if it names every header kept from before |
| RequestLaws.OldHeaderMakesAForm | src/httprequest.cpp:126-134 | after a form post, a POST without Content-Type is decoded as a form, and recovered only as one |
| RequestLaws.PrintedTripsIff | src/httprequest.cpp:46-50 | parsing a printed message fails the assert if and only if the body has one octet, or there is neither body nor header |
| RequestLaws.AssertHoldsIff | src/httprequest.cpp:18-63 | on arbitrary input the assert of Update_Readp holds if and only if the input is framed: CRLF-terminated lines, then nothing, two octets, or a non-header line and more |
| RequestLaws.FramedParses | src/httprequest.cpp:18-63 | the exact result of parsing any framed input |
| RequestLaws.ParsingBreaksIff | src/httprequest.cpp:18-179 | on arbitrary input parsing fails to return if and only if the input is not framed (a failed assert), or is a form post, by the headers read or kept, whose body has a '%' cut short (undefined behaviour) |
| RequestLaws.CutFormOverrunsIff | src/httprequest.cpp:136-179 | on framed input the write past the body happens if and only if it is such a form post |
| RequestLaws.BadRequestKeepsOldPath | src/httprequest.cpp:33-38 | a rejected request differs from the one before only in code, phase and flags, path included; no completed one has that code |
| RequestLaws.ServedPath | src/httprequest.cpp:190-250 | the login flag, the missing code and the executable flag are set exactly on the login path, and on named files that stat does not find, or finds executable |
| ServedRequests.CompletedRequestServes | src/httprequest.cpp:11-251 | any completed request comes to what its own first line asks for, whatever came before: the login and its flag, or a path below the root that names a file: the home page of the directory asked for, the named file, or the 404 page; code and executable flag are its own |
| ServedRequests.PathIsServed | src/httprequest.cpp:196-251 | the same for the path handling alone |
| ServedRequests.HomePageIsServed | src/httprequest.cpp:11-213 | the octets of GET / after any earlier requests leave the path ../wwwroot/index.html |
| ServedRequests.HomeRequestOctets | src/httprequest.cpp:72-117 | a message printed is the literal request, octet by octet |
| ServedRequests.OnlyFormPostsAreDecoded | src/httprequest.cpp:119-134 | a body is decoded exactly in a POST whose Content-Type is that of forms; any other request keeps its body and the form |
| ServedRequests.JsonIsNoForm | src/httprequest.cpp:126-134 | a POST of JSON keeps its body and the form |
| RequestLaws.SuffixNeverDefaults | src/httprequest.cpp:214-222 | a named file's suffix is what follows the last dot, which there always is |
| Form.DecodedIff | src/httprequest.cpp:147-163 | any body is decoded without a write past its end if and only if every '%' met in it has two octets after it |
| Form.ScanStaysInsideIff | src/httprequest.cpp:147-163 | the same from any point of the loop, whatever was rewritten and stored before |
| Form.CutPercentOverruns | src/httprequest.cpp:158-163 | the body a=%4 is not |
| Form.TwoOctetsIdleIff | src/httprequest.cpp:136-179 | decoding two octets gives a body and leaves a form as it is if and only if there is no '%', the body is they with spaces for '+', and what they would store under the empty key is there |
| Form.KnownKeyIff | src/httprequest.cpp:165-178 | a key of the earlier form keeps its value if and only if no pair before the last gives it another |
| Form.DecodedForm | src/httprequest.cpp:136-179 | the form decoded from any encoded pairs, on top of any earlier form |
| Form.OldFormVanishesIff | src/httprequest.cpp:165-178 | the form after decoding encoded pairs is that of a fresh decoding if and only if every key kept is stored anew, or is the last one with the same non-empty value |
| Form.OldFieldShows | src/httprequest.cpp:165-178 | a field kept from an earlier request shows in a later one's form |
| Form.DecodingUndoesEncodingIff | src/httprequest.cpp:136-179 | with a fresh form, distinct keys and a non-empty last value, decoding gives the encoded pairs back if and only if no octet was escaped |
| Form.PlainFormIff | src/httprequest.cpp:174-178 | unescaped pairs are all added to the earlier form if and only if the last is new and not empty, or already there |
| Form.LastFieldGoesStale | src/httprequest.cpp:175-178 | the last field of a form whose key is known keeps its earlier value |
| Form.KeptPlain | src/httprequest.cpp:148-163 | a text comes through unchanged if nothing in it is escaped; otherwise it grows and keeps a percent sign |
| Form.EscapeNotDecoded | src/httprequest.cpp:158-163 | what is left of %3D |
| Form.EscapeLeaves | src/httprequest.cpp:158-163 | what the escape of any octet leaves: tens and units of a number that is the octet only if both digits are letters |
| Form.LowerCaseLeavesTheSame | src/httprequest.cpp:253-257 | a lower-case escape leaves what the upper-case one leaves |
| Form.NegativeOctetLeaves | src/httprequest.cpp:158-163 | an octet of 128 or more after a '%' counts as negative |
| Form.WithDefaultLaws | httpconnector/httprequest.hpp:30 | a lookup changes no field and adds none but an empty one |
| ThreadPool.Pool.WorkerSection | include/threadpool.hpp:17-31 | one pass of the worker loop: takes the oldest task, else leaves after shutdown, else sleeps |
| ThreadPool.Pool.Push | include/threadpool.hpp:48-54 | AddTask appends under the lock |
| ThreadPool.Pool.ShutDown | include/threadpool.hpp:40-46 | the destructor clears the status |
| ThreadPool.StepKeepsInv | include/threadpool.hpp:17-56 | each step keeps wakeup accounting, task conservation and orderly shutdown |
| ThreadPool.NoLostWakeup | include/threadpool.hpp:17-56 | once all notify_one calls are out and no worker is about to look, a waiting worker means an empty queue, although notify_one comes after the unlock |
| ThreadPool.FirstInFirstOut | include/threadpool.hpp:19-25 | over any run tasks are taken in the order of adding, each once, and each taken one has finished or is being run |
| ThreadPool.DrainTerminates | include/threadpool.hpp:17-46 | after shutdown no run is longer than a measure on queued tasks, busy and entering workers and pending notifies |
| ThreadPool.DrainCompletes | include/threadpool.hpp:26-46 | where no step is left after shutdown, every worker has left and every task ever added has run |
| BlockQueue.BlockDeque.PushSection | log/blockqueue.hpp:54-68 | appends exactly when there is room |
| BlockQueue.BlockDeque.PopSection | log/blockqueue.hpp:71-87 | takes the oldest item; is refused if and only if it is back from a wait on a closed queue; waits if and only if the queue is empty and it is not refused |
| BlockQueue.BlockDeque.CloseSection | log/blockqueue.hpp:104-109 | empties and closes |
| BlockQueue.HeldItemComesThrough | log/blockqueue.hpp:53-68 | along any run a producer that waits still has the item its call came with, or that item was pushed meanwhile |
| BlockQueue.HeldItemStep | log/blockqueue.hpp:53-68 | each step leaves a waiting producer its item, or appends exactly that item |
| BlockQueue.AlwaysBoundedFifo | log/blockqueue.hpp:53-112 | over all interleavings from the start, closed or not: never more than the capacity, and pushed = popped or dropped, in order, ++ queued |
| BlockQueue.StepKeepsAccount | log/blockqueue.hpp:53-87 | while open, each step but clear keeps the wakeup account of consumers and producers |
| BlockQueue.OpenQueueLosesNoWakeup | log/blockqueue.hpp:53-87 | on every open run: if a consumer waits, no more items than woken consumers; if a producer waits, no more free places than woken producers |
| BlockQueue.ClearKeepsAccountIff | log/blockqueue.hpp:89-94 | clear keeps the account if and only if no producer waits or enough are woken already |
| BlockQueue.ClearStrandsProducer | log/blockqueue.hpp:89-94 | a run after which a producer sleeps with the queue empty and nobody woken |
| BlockQueue.FreshPopWaitsIff | log/blockqueue.hpp:71-82 | a call of pop_front waits if and only if the queue is empty, open or closed |
| BlockQueue.ClosedQueueLeavesAsleep | log/blockqueue.hpp:71-112 | a consumer asleep after the broadcast of Close sleeps on along every run without push, spurious wakeup or another Close |
| BlockQueue.LatePopFallsAsleep | log/blockqueue.hpp:71-112 | a run of three steps leads to such a consumer |
| BlockQueue.BroadcastsWakeAll | log/blockqueue.hpp:110-111 | the notify_all calls leave no caller waiting |
| BlockQueue.BroadcastRousesAll | log/blockqueue.hpp:111 | the producers' broadcast leaves no producer waiting |
| BlockQueue.CloseEndsEveryWait | log/blockqueue.hpp:71-112 | along every run after Close, whatever is pushed, each consumer that was waiting is awake once the broadcast is out, and its return from the wait makes it leave with nothing taken |
| BlockQueue.ReturnsEmptyTheRoom | log/blockqueue.hpp:71-87 | on a closed queue as many returns as there are woken consumers leave none on the way, with nothing delivered |
| BlockQueue.PushIgnoresStatus | log/blockqueue.hpp:54-68 | push_back appends when there is room and waits otherwise, open or closed |
| BlockQueue.ExitsAre | log/blockqueue.hpp:71-112 | pops deliver the oldest item, clear and Close drop all, nothing else lets an item out, and Close alone closes |
| SqlPool.SQLPool.Init | src/sql_pool.cpp:54-84 | ids 0 to max - 1 with their handles, all free; in order if and only if the size is not negative |
| SqlPool.SQLPool.GetSection | src/sql_pool.cpp:17-32 | hands out the front pair and marks it used exactly when one is free |
| SqlPool.SQLPool.ReleaseConn | src/sql_pool.cpp:34-52 | takes back an id in use, refuses any other |
| SqlPool.SQLPool.Login | src/httpresponse.cpp:111-191 | waits exactly when no connection is free, having changed nothing; else every path, for every outcome of the MySQL calls, gives back the pair it took: the used ids and the free count are as before, the list is rotated by one |
| SqlPool.ReleaseKeepsHandlesIff | src/sql_pool.cpp:34-52 | releasing an id in use keeps the partition with any handle, and the handles if and only if it is that id's |
| SqlPool.StepKeepsInv | src/sql_pool.cpp:17-52 | each step keeps partition, handles, holders and wakeup account |
| SqlPool.RunKeepsInv | src/sql_pool.cpp:17-81 | listed ids are distinct and disjoint from the used ones, together 0 to max - 1; the free count is the list's length; each used id has one holder; over every interleaving |
| SqlPool.CallersAreServed | src/sql_pool.cpp:17-52 | a returned id is always known; nobody waits on a free connection without a woken caller on the way |
| Trim.SkipTrailingSpace | outheader/m_string.h:317-329 | eight octets at a time finds the end the naive backward loop finds |
| Trim.SkipTrailingSpaceAligned | outheader/m_string.h:280-310 | so does the word-aligned version, for 4- and 8-byte words and every start address, reading only aligned words inside the string |
| Trim.SpaceWordTest | outheader/m_string.h:282-289 | a word equals SPACE_INT if and only if all its octets are spaces |
| ByteOrder.LoadAfterStore | outheader/byte_order_generic.h:38-97 | load(store(A)) = A mod 2^(8N) for N = 2, 3, 4, 5, 6, 8 |
| ByteOrder.StoreAfterLoad | outheader/my_byteorder.h:45-101 | store(load(bytes)) = bytes for N = 2, 3, 4, 5, 6, 8 |
| ByteOrder.Sint3IsTwosComplement | outheader/my_byteorder.h:31-43 | sint3korr is the 24-bit two's complement reading of uint3korr |
| ByteOrder.EightSpacesTest | outheader/byte_order_generic.h:56-69 | uint8korr gives 0x2020202020202020 if and only if all eight octets are 0x20 |
| ByteOrder.Uint2Korr | outheader/byte_order_generic.h:38-44 | the base-256 numeral of two octets |
| ByteOrder.Uint3Korr | outheader/my_byteorder.h:45-52 | the base-256 numeral of three octets |
| ByteOrder.Uint4Korr | outheader/byte_order_generic.h:46-54 | the base-256 numeral of four octets |
| ByteOrder.Uint5Korr | outheader/my_byteorder.h:54-63 | the base-256 numeral of five octets |
| ByteOrder.Uint6Korr | outheader/my_byteorder.h:65-75 | the base-256 numeral of six octets |
| ByteOrder.Uint8Korr | outheader/byte_order_generic.h:56-69 | the base-256 numeral of eight octets |
| ByteOrder.Sint2Korr | outheader/byte_order_generic.h:20-26 | the 16-bit two's complement number congruent to the numeral |
| ByteOrder.Sint4Korr | outheader/byte_order_generic.h:28-36 | the 32-bit two's complement number congruent to the numeral |
| ByteOrder.Sint8Korr | outheader/byte_order_generic.h:71-74 | the 64-bit two's complement number congruent to the numeral |
| ByteOrder.Int2Store | outheader/byte_order_generic.h:76-81 | writes the two lowest base-256 digits and nothing else |
| ByteOrder.Int3Store | outheader/my_byteorder.h:77-82 | writes the three lowest base-256 digits and nothing else |
| ByteOrder.Int4Store | outheader/byte_order_generic.h:83-89 | writes the four lowest base-256 digits and nothing else |
| ByteOrder.Int5Store | outheader/my_byteorder.h:84-91 | writes the five lowest base-256 digits and nothing else |
| ByteOrder.Int6Store | outheader/my_byteorder.h:93-101 | writes the six lowest base-256 digits and nothing else |
| ByteOrder.Int8Store | outheader/byte_order_generic.h:91-97 | writes the eight lowest base-256 digits as two halves |

## Left out

- DispatcherTheorems.NoResponseIsLost: responses of 2^32 octets or more, for which the completion test of the code is wrong (`CompletionTruthfulIff`), and the end of the process in a failed assert or undefined behaviour, after which there is no further step.
- DispatcherTheorems.NoRace: a step is a whole access to a connector; atomicity below that (single loads and stores, the memory order of the buffer's atomics) is not modelled.
- The event and accept loops of src/webserver.cpp and the interleavings of the monitors are step systems on values, since several threads take part; the handlers, connectors and critical sections are imperative.
- src/epoller.cpp and the system calls, beyond what they may return; the listening socket's own registration, and connections still waiting when the accept loop stops at the client limit.
- Request.HttpRequest.HandlePath: the file system; the result of `stat` is a parameter, and the second call of `stat`, whose result is not used, is not there.
- The text of responses (status line, headers, date, Content-Length) and file loading: the header block and the file's octets are parameters, and the lifetime of the file's memory behind segment 1 is not modelled. Exceptions are not modelled.
- The MySQL calls and the comparison of passwords in `_Login`, beyond their outcome; a null handle, which Init cannot list.
- `Update_Writep`, `Update_Readp(const char*)`, `Release_All_Buff(string&)` and `print` of Buffer, and `empty`, `full` and `size` of BlockDeque: unused or easy.
- Destruction of the pools while callers are still inside them; AddTask after the shutdown of the thread pool.
- Trim.SkipTrailingSpaceAligned: only its results and its reads; the int pointer casts are offsets from an arbitrary start address.
- ByteOrder.Sint3Korr: joins its fields by a bitwise or on unbounded numbers, which is the 32-bit one on its operands.
- Logging, timestamps, singletons, `main`, and the rest of outheader/, which declares or passes through.
