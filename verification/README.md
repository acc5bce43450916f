# A verified model of the HTTP/1.1 static file server

This project models the core of a C++20 HTTP/1.1 static file server in Dafny and proves what the
server is for: that TCP segmentation does not change what a client said, that every reply reaches the
client in order and can be cut off the stream again, exactly when a connection and a shutdown end, and
that the thread pool loses neither wakeups nor descriptors nor counts. It also covers the polygon test of the
legacy image map program.

Verify everything with `dafny verify dfyconfig.toml`.

## How it is organised

- **Parsing.** `Text` holds searching, trimming and line splitting. `RequestGrammar` says what one call
  of the parser returns for a buffer. `HttpParser` is the class with its buffer and loops, proved to
  refine that. `RequestRoundTrip` gives the canonical printer and the exact set of requests the parser
  can return. `RequestSpelling` says how a request may be written, without reference to any reading, and
  proves that the parser answers exactly by it. `Chunking` treats whole sessions of feeds.
- **Responses and files.** `HttpResponse` serialises and contains a reference client. `PercentDecoding`
  and `StaticFiles` cover decoding, path confinement with a lexical resolver, the handler's decisions and
  the router.
- **Connections.** `ConnectionMachine` is the state machine of one connection against an environment
  that chooses every clock reading, every result of `setsockopt`, `recv` and `send`. `Connection` is the
  class with its fields and its `serve` loop, proved to run that machine. `ConnectionInvariants`,
  `ConnectionLifetime` and `ConnectionOutput` prove bounds, termination, the lifetime bound and output
  refinement. `Persistence` is the keep-alive decision.
- **Threads.** `BoundedQueue` has the queue object and, separately, any number of threads using it with
  sleep sets, notifications and spurious wakeups. `QueueRefinement` runs the two models
  together and shows that a call on that queue is one step of the server's model. `ServerProtocol` interleaves acceptors, shutdown
  callers, workers and a signal handler; `ServerCustody`, `ServerAccounts`, `ServerShutdown` and
  `ServerControl` prove ownership, accounting, the end of shutdown and how each call proceeds. `Descriptors` is the `Fd` class. `Finite` holds one
  fact about set sizes.
- **Image maps.** `Polygon` is the point-in-polygon test over exact reals.

Four properties do not hold as one would first state them. For each the exact condition is proved, and
an input on which it fails.

- Chunking independence fails when a header terminator starts at an offset within two bytes of the
  header limit, because one size test counts the terminator's own bytes and the other does not
  (src/parser.cpp:199 and src/parser.cpp:206). `Chunking.ChunkingExactly` proves that independence
  holds for a stream exactly when no head ends there, heads that are bad requests on their own aside;
  `Chunking.LimitsExactly` that every header limit large enough for any request has streams that fail.
- HEAD agrees with GET exactly when the target is not served as a file, or reading the file gives as
  many bytes as the file system announced (src/static_file_handler.cpp:160-186):
  `StaticFiles.HeadIsGet`, `StaticFiles.HeadBytes`; `StaticFiles.UnreadableFileDisagrees` is a file that fails.
- Shutdown need not end. The listener's `accept` is a blocking call (src/tcp_listener.cpp:83-94), and a
  thread that has gone from `poll` into it is not reached by the pipe. `ServerShutdown.AcceptHangs` is a
  run that ends with shutdown requested, the pipe readable, every worker gone and `serve_forever` in
  `accept`. `ServerShutdown.ShutdownEndsExactly` proves that, left to itself after a request and with the
  pipe written, the server halts in a bounded number of steps with every call and worker finished if and
  only if no thread was in `accept` when shutdown was requested; the threads in `accept` then are the
  ones that stay.
- `serve` need not return. `ConnectionInvariants.NeverClosesExactly` proves that a connection never
  closes exactly when, from some step on, every call it makes is interrupted before its deadline;
  `ConnectionInvariants.FrozenClockSpins` is such a run, and a clock that moves during interrupted calls
  rules it out (`ConnectionInvariants.Stops`).

Where prose and code of the repository differ, the model follows the code. A request read deadline
queues a 408 and goes to Writing (src/connection.cpp:183), although docs/architecture.md:62 says Closed.
A full queue blocks the producer (include/http/bounded_queue.hpp:27), although notes.md:240 speaks of
rejecting.

Bytes are modelled as characters, and `std::size_t` limits where the code tests them (`SIZE_MAX` in
`Content-Length`). Unbounded integers elsewhere are safe because the bounds proved here keep them small.

## Model

| member | source | states |
|---|---|---|
| Text.FindSpec | src/parser.cpp:196 | the search returns an occurrence with none before it, and nothing only when there is none |
| Text.FindStable | src/parser.cpp:195-208 | the first terminator found does not move when more bytes arrive |
| Text.TrimIs | src/parser.cpp:28-41 | trimming yields the middle of any split into white space, trimmed text, white space |
| Text.TrimSplits | src/parser.cpp:28-41 | every string has such a split, so the two lemmas determine trimming |
| Text.SplitLinesRejoin | src/parser.cpp:210-268 | the lines of a head hold no CRLF and rejoin with CRLF to the head |
| Text.SplitJoin | src/parser.cpp:210-268 | splitting undoes joining for any lines without CRLF |
| Text.HeadLinesNonEmpty | src/parser.cpp:228-268 | as a head ends at the first blank line, none of its lines after the first is empty |
| Text.BlankLineAfterJoin | src/parser.cpp:196-206 | the first blank line after joined non-empty lines is the one written behind them |
| RequestGrammar.SameMessage | src/parser.cpp:195-313 | two buffers that agree up to the end of a complete message yield the same request |
| HttpParser.ToLowerAscii | src/parser.cpp:17-26 | the loop lowers every character and keeps the length |
| HttpParser.TrimOws | src/parser.cpp:28-41 | the two cursors keep exactly the text between leading and trailing white space |
| HttpParser.CheckToken | src/parser.cpp:70-82 | true exactly for non-empty strings of token characters |
| HttpParser.ReadHeaderLine | src/parser.cpp:128-151 | a header line gives its lower-cased name and trimmed value, or the fault of the first test it fails |
| HttpParser.HttpParser.constructor | src/parser.cpp:186-189 | a new parser has an empty buffer and the given limits |
| HttpParser.HttpParser.Feed | src/parser.cpp:191-193 | the buffer grows by the bytes at its end |
| HttpParser.HttpParser.LineAt | src/parser.cpp:228-242 | the line at the cursor is the first line of the text left, with the rest behind its CRLF |
| HttpParser.HttpParser.StoreField | src/parser.cpp:243-261 | a repeated name is joined when it is connection and refused otherwise |
| HttpParser.HttpParser.ReadHeaders | src/parser.cpp:228-268 | the cursor loop reads exactly the lines after the first and leaves only by break or error |
| HttpParser.HttpParser.ReadHead | src/parser.cpp:210-300 | request line, header fields and framing as the grammar decides them, with the same first fault |
| HttpParser.HttpParser.Next | src/parser.cpp:195-313 | refines the grammar: same outcome, and exactly the consumed bytes erased, none on any other outcome |
| RequestRoundTrip.AddFieldRepresents | src/parser.cpp:243-261 | adding a field keeps map and field list in correspondence and is refused exactly when it could not |
| RequestRoundTrip.HeaderLinesRepresent | src/parser.cpp:228-268 | the header map is the fold of the field list: unique names, connection values joined in arrival order |
| RequestRoundTrip.RepresentsUnique | src/parser.cpp:243-261 | the field list determines the header map |
| RequestRoundTrip.FramingAgrees | src/parser.cpp:270-300 | framing yields the body's length if and only if host, transfer-encoding and content-length demand it |
| RequestRoundTrip.PrintParses | src/parser.cpp:195-313 | a well-formed request printed canonically, followed by any bytes, parses back and consumes exactly its text |
| RequestRoundTrip.ParsedIsWellFormed | src/parser.cpp:84-173 | every request returned is well formed |
| RequestRoundTrip.CanonicalIsShortest | src/parser.cpp:84-173 | no head is shorter than the canonical one of the request it is read as |
| RequestRoundTrip.ParsableExactly | src/parser.cpp:195-313 | for any limits, the requests the parser can return are exactly the well-formed ones whose canonical text is within them |
| RequestSpelling.LineExactly | src/parser.cpp:84-126 | a request line is read as method, target and version exactly when it is these, one space apart, a token, an origin-form target and a known version |
| RequestSpelling.FieldExactly | src/parser.cpp:128-151 | a header line is read as a field exactly when it is the name in any case, a colon, and the trimmed value with any white space around it |
| RequestSpelling.HeadersExactly | src/parser.cpp:228-268 | header lines are read as a list and a map exactly when each spells its field and the map holds each name once, connection joined |
| RequestSpelling.HeadExactly | src/parser.cpp:210-300 | a head is read as a request with a body length exactly when its lines spell that request and its framing gives that length |
| RequestSpelling.SpelledParses | src/parser.cpp:195-313 | every way of writing a well-formed request within the limits is read as it, whatever follows |
| RequestSpelling.ReadyExactly | src/parser.cpp:195-313 | a request is ready, with so many bytes used, if and only if the buffer starts with some way of writing it in so many bytes |
| RequestSpelling.WaitsExactly | src/parser.cpp:195-313 | more data is asked for if and only if no blank line has come and the buffer is within the limit, or a whole head has come and further bytes would complete its message |
| RequestSpelling.CodedExactly | src/parser.cpp:277-288 | the error is an unsupported transfer coding if and only if a head, in order otherwise, announces one; any other error is a bad request |
| RequestSpelling.LowerIs | src/parser.cpp:17-26 | lower-casing by the codes of ASCII |
| RequestSpelling.TokenCharactersAre | src/parser.cpp:43-68 | the characters of a token by the codes of ASCII |
| RequestSpelling.NumbersAre | src/parser.cpp:153-173 | decimal digits and their worth by the codes of ASCII, and the largest size |
| RequestSpelling.SeparatorsAre | src/parser.cpp:28-41 | white space and line ends by the codes of ASCII |
| Chunking.ReadyIsStable | src/parser.cpp:195-313 | a returned request does not depend on the bytes behind it |
| Chunking.DrainMore | src/parser.cpp:191-313 | draining after one part and again after the next is draining once after both |
| Chunking.ErrorIsStable | src/parser.cpp:199-208 | an error on a prefix is the same kind of error on the whole unambiguous stream |
| Chunking.ChunkingIndependence | src/parser.cpp:191-313 | an unambiguous stream gives the same requests, status and error kind however it is cut |
| Chunking.RetryingIndependence | src/parser.cpp:191-313 | if errors are retried when more bytes arrive, the result never depends on the cuts |
| Chunking.CutDisagrees | src/parser.cpp:199-208 | every ambiguous stream has a cut whose first part already fails, unlike the whole |
| Chunking.ChunkingExactly | src/parser.cpp:191-313 | independence of the cuts holds if and only if no head that would pass ends in the window at the limit |
| Chunking.WindowIsReal | src/parser.cpp:199-208 | every well-formed request whose head ends in the window parses whole and fails when cut |
| Chunking.AtTheLimitIsWellFormed | src/parser.cpp:199-208 | for every header limit from twelve on, a well-formed request whose head is exactly as long as the limit |
| Chunking.LimitsExactly | src/parser.cpp:199-208 | no stream depends on its cuts if and only if the header limit is below twelve bytes, too small for any request |
| Chunking.BytesConserved | src/parser.cpp:191-313 | over any feeds and nexts, the erased bytes followed by the buffer are all bytes fed, in order |
| Chunking.MessageBoundary | src/parser.cpp:195-313 | what is erased is a head without blank line, the blank line, and the body |
| Persistence.TrimEnds | src/connection.cpp:19-29 | the connection's own trimming agrees with the parser's |
| Persistence.AsciiIEquals | src/connection.cpp:31-45 | equality after lower-casing both sides |
| Persistence.FindConnectionToken | src/connection.cpp:47-68 | the comma loop finds a token if and only if it is an element of the list |
| Persistence.KeepAlive | src/connection.cpp:70-81 | the decision by version and the two tokens |
| Persistence.TokenIsElement | src/connection.cpp:47-68 | scanning is membership: some text between two commas or ends, trimmed and lowered, is the token |
| Persistence.JoinedLists | src/parser.cpp:243-261 | joining two lists with a comma and a space gives the options of both, no more |
| Persistence.MergedOptions | src/parser.cpp:243-261 | merging the Connection field lines keeps the set of options |
| Persistence.PersistenceIsCorrect | src/connection.cpp:70-81 | for every parsed request the decision on the merged map is the rule of section 9.3 of RFC 9112 on the separate field lines |
| HttpResponse.DecimalReads | src/response.cpp:43-45 | a printed length reads back as itself |
| HttpResponse.StatusReads | src/response.cpp:32-33 | from the status line the client learns version, code and reason, for a version without spaces and a code that is not negative |
| HttpResponse.SerializeResponse | src/response.cpp:29-52 | for an iteration that visits every header once, the loop writes status line, the map's headers in that order except its own lengths, one length line, blank line and body |
| HttpResponse.NoOtherLength | src/response.cpp:35-41 | no Content-Length of the map, in any case, is written |
| HttpResponse.FieldsRead | src/response.cpp:29-52 | all header lines read back as fields, the one length last |
| HttpResponse.FieldsAreHeaders | src/response.cpp:35-41 | the fields in front of the length are exactly the map's entries, each once, apart from its own lengths |
| HttpResponse.HeaderArrives | src/response.cpp:35-41 | a header the map has in one spelling arrives exactly once, with its value |
| HttpResponse.ResponseReads | src/response.cpp:29-52 | whatever follows, a client reads back exactly this response and leaves the rest |
| HttpResponse.StreamReads | src/response.cpp:29-52 | a client told which requests were HEAD recovers the whole sequence of responses from the concatenated stream |
| PercentDecoding.PercentDecode | src/static_file_handler.cpp:36-66 | the one-pass loop computes the recursive decoding, failures included |
| PercentDecoding.DecodeSucceeds | src/static_file_handler.cpp:22-66 | decoding succeeds if and only if every percent sign is followed by two hexadecimal digits, in either case and given by their codes, that are not both zero |
| PercentDecoding.DecodeConcat | src/static_file_handler.cpp:36-66 | decoding distributes over concatenation unless the cut splits an escape, and a part that cannot be decoded spoils the whole |
| PercentDecoding.DecodeEncode | src/static_file_handler.cpp:36-66 | decoding undoes every encoding, whatever is escaped and with digits in either case, if and only if no NUL was escaped |
| PercentDecoding.DecodeExactly | src/static_file_handler.cpp:22-66 | a text decodes to a string if and only if it writes it character by character, each as itself or as its escape with digits in either case |
| StaticFiles.MakeRelativePath | src/static_file_handler.cpp:68-74 | what is dropped is slashes only and what is left does not start with one, so it cannot replace the root when appended to it |
| StaticFiles.IsInsideRoot | src/static_file_handler.cpp:76-92 | the component walk is the prefix test |
| StaticFiles.ReadFile | src/static_file_handler.cpp:135-158 | piecewise reading returns the whole content, or nothing exactly when it is unreadable or over the limit |
| StaticFiles.HandleRequest | src/static_file_handler.cpp:197-236 | the sequence of checks gives the response of the specification, case by case |
| StaticFiles.QueryIsDropped | src/static_file_handler.cpp:13-20 | the path of a target is what stands before the first question mark |
| StaticFiles.LookUpExactly | src/static_file_handler.cpp:197-236 | for which targets, whatever their query, the lookup ends in 400, 403, 404 or a file, each as an if-and-only-if over decoding, resolution and the file system |
| StaticFiles.RootIsIndex | src/static_file_handler.cpp:199-201 | the root is answered as /index.html |
| StaticFiles.AnswersExactly | src/router.cpp:19-33 | 405 with Allow exactly for methods other than GET and HEAD; the file, 200 with its content or its size, exactly when size, content and limit allow it, 403 when they do not |
| StaticFiles.ContentTypesAre | src/static_file_handler.cpp:116-133 | the content type of names with each of the five known extensions, and of names without a dot |
| StaticFiles.ServedInsideRoot | src/static_file_handler.cpp:197-236 | a response with file content comes from a regular file below the root; without links it is the root followed by what the target's descent leaves, and the target asks for no directory |
| StaticFiles.RoutedReadable | src/router.cpp:19-33 | every routed response can be cut off the stream by a client that knows the method |
| StaticFiles.HeadIsGet | src/router.cpp:19-33 | HEAD answers as GET without body if and only if the file is coherent |
| StaticFiles.HeadBytes | src/static_file_handler.cpp:160-186 | on the wire HEAD is GET minus the body if and only if the file is coherent |
| StaticFiles.UnreadableFileDisagrees | src/static_file_handler.cpp:173-182 | a file that cannot be read answers 200 to HEAD and 403 to GET |
| StaticFiles.ComponentsRejoin | src/static_file_handler.cpp:68-74 | the components of a path text hold no slash and rejoin to it |
| StaticFiles.NormaliseIsClimb | src/static_file_handler.cpp:197-236 | any names, dots and all, resolve to a climb from the base followed by a descent |
| StaticFiles.StaysExactly | src/static_file_handler.cpp:76-92 | any names stay below the root if and only if the descent first goes back through the root names the climb left |
| StaticFiles.Confinement | src/static_file_handler.cpp:197-236 | on a site without links, which targets are bad requests, which are refused for leaving the root, that one asking for a directory by a trailing slash or dots is never answered with a file, and which file below the root each other one is looked up as |
| StaticFiles.LinklessIsLexical | src/static_file_handler.cpp:212-218 | any entries below a canonical root make such a site |
| ConnectionMachine.ArmedTimeVal | src/connection.cpp:325-348 | the armed timeval is never zero, splits the truncated time exactly, and overshoots by less than a microsecond |
| Connection.Connection.constructor | src/connection.cpp:122-149 | a new connection is the machine's opening state |
| Connection.OpenConnection | src/connection.cpp:129-136 | construction is refused exactly when a timeout or the request limit is not positive |
| Connection.Connection.Finish | src/connection.cpp:350-353 | records the reason and closes, changing nothing else |
| Connection.Connection.BeginRequestTimeout | src/connection.cpp:312-316 | enters the request phase with a fresh deadline |
| Connection.Connection.BeginKeepAliveTimeout | src/connection.cpp:318-323 | enters the keep-alive phase with a fresh deadline |
| Connection.Connection.ArmSocketTimeout | src/connection.cpp:325-348 | expiry, failure and the timeval handed over, as the machine says |
| Connection.Connection.QueueResponse | src/connection.cpp:300-310 | the serialised reply is queued from its start with a fresh write deadline |
| Connection.Connection.ExpireRead | src/connection.cpp:174-187 | a late keep-alive read closes, a late request read queues a 408 |
| Connection.Connection.ReadFromSocket | src/connection.cpp:174-221 | one read step of the machine |
| Connection.Connection.ParseRequest | src/connection.cpp:223-257 | one parse step of the machine |
| Connection.Connection.WriteToSocket | src/connection.cpp:259-298 | one write step of the machine |
| Connection.Connection.Turn | src/connection.cpp:154-169 | one turn of the loop is one step of the machine |
| Connection.Connection.Serve | src/connection.cpp:154-172 | returns in the closing state of the machine's run, with its counts and reason, unless every call is for ever interrupted before its deadline |
| ConnectionInvariants.StepKeeps | src/connection.cpp:154-310 | every step keeps the buffer, offset, phase and count invariant |
| ConnectionInvariants.RunsKeepBounds | src/connection.cpp:189-232 | over every run the buffer stays within its bounds, keep-alive waiting has an empty buffer, a started request a non-empty one |
| ConnectionInvariants.DeadlineStands | src/connection.cpp:174-221 | in the request phase no step moves the read deadline |
| ConnectionInvariants.DeadlineStandsThroughout | src/connection.cpp:174-221 | over any run that stays in the request phase the deadline is the one set at its start |
| ConnectionInvariants.DeadlinesExactly | src/connection.cpp:300-323 | when each deadline is set and to what, by the phases entered and left, and that nothing else moves it |
| ConnectionInvariants.OpensExactly | src/connection.cpp:122-141 | the state, phase and read deadline a connection starts with, closed with a read error when it has no descriptor |
| ConnectionInvariants.ClosesExactly | src/connection.cpp:174-298 | for each of the nine reasons, a step closes the connection for it if and only if what that reason names happens in the step |
| ConnectionInvariants.TurnsAwayExactly | src/connection.cpp:174-257 | a reply to no request is queued exactly when a started request is late, or malformed, and it is the last |
| ConnectionInvariants.StepLowers | src/connection.cpp:154-310 | with no assumption on the clock, a step is an interrupted call that changes nothing or lowers the lexicographic rank of requests, stage, work and state |
| ConnectionInvariants.NeverClosesExactly | src/connection.cpp:154-310 | the connection never closes if and only if from some step on every call it makes is interrupted before its deadline |
| ConnectionInvariants.SpinningTakesTime | src/connection.cpp:174-298 | where interrupted calls move the clock, so many of them pass the deadline |
| ConnectionInvariants.Stops | src/connection.cpp:154-172 | against every peer the connection closes after finitely many steps, if the clock moves during the interrupted calls it makes |
| ConnectionInvariants.FrozenClockSpins | src/connection.cpp:174-221 | with a clock that stands still, interruptions can keep it reading for ever |
| ConnectionLifetime.ReturnsInTime | src/connection.cpp:325-348 | a kernel that honours the armed timeval returns less than a microsecond after the deadline |
| ConnectionLifetime.StepTimely | src/connection.cpp:174-310 | each step stays within the time due for the requests served so far |
| ConnectionLifetime.LifetimeIsBounded | src/connection.cpp:154-348 | with N requests, read, write and keep-alive times R, W and K, no step of a connection ends later than N(R+W)+(N-1)K and 999 ns for each of the 3N-1 phases |
| ConnectionLifetime.ClosesInTime | src/connection.cpp:154-348 | with a kernel that honours every timeout and a clock that moves, the connection is closed by that bound |
| ConnectionLifetime.HangUpIsHonest | src/connection.cpp:189-221 | such kernels exist: a peer that hangs up at once meets every assumption |
| ConnectionOutput.ParsesMore | src/connection.cpp:223-257 | bytes that arrive later do not change the requests already taken |
| ConnectionOutput.StepLedger | src/connection.cpp:154-310 | every step keeps the ledger of bytes received, requests taken, replies queued and bytes sent |
| ConnectionOutput.OutputRefinement | src/connection.cpp:223-310 | over every run the bytes sent are a prefix of the replies a sequential server gives, all of them unless writing failed, then the last is cut short; every reply but the last keeps alive, and the last closes exactly when the server ended the connection |
| ConnectionOutput.EverythingAnswered | src/connection.cpp:174-257 | the requests answered are the first ones in the bytes received, and all of them when the peer closes, a read fails or times out, or a request is malformed, which gets the reply its fault calls for |
| ConnectionOutput.SameBytesSameReplies | src/connection.cpp:223-310 | the same bytes, cut and timed in any way, get the same reply to every request answered in both runs |
| ConnectionOutput.SameBytesSameOutput | src/connection.cpp:174-310 | two connections that are over after the same bytes, however cut and timed, sent the same bytes, farewells included, if both or neither timed out reading and no write failed |
| ConnectionOutput.ClientReads | src/connection.cpp:223-310 | unless writing failed, a client that knows its HEADs recovers exactly the responses from a closed connection's bytes; each carries one Connection field, keep-alive except for close in the last when the server ended the connection |
| ConnectionOutput.KeepsOpenExactly | src/connection.cpp:223-257 | over every run, a reply to a request keeps the connection open if and only if the Connection field lines of that request do by section 9.3 of RFC 9112 and it is not the last one permitted; of a connection closed after such a reply, the limit is the reason exactly when it was reached |
| ConnectionOutput.ClientSees | src/connection.cpp:223-310 | once the connection has closed without a failed write, and if the router's responses are readable, the client reads for each request in turn the response the router gives it, with close or keep-alive by that request, then at most one farewell: 408 when late, 501 for a transfer coding, 400 otherwise |
| ConnectionOutput.StaticServerIsGood | src/router.cpp:19-33 | the file server meets what ClientReads asks of a server, however its files change |
| BoundedQueue.BoundedQueue.constructor | include/http/bounded_queue.hpp:16-20 | a new queue is open and empty |
| BoundedQueue.Make | include/http/bounded_queue.hpp:16-20 | construction is refused exactly for capacity zero |
| BoundedQueue.BoundedQueue.Push | include/http/bounded_queue.hpp:25-42 | one critical section: wait, refuse, or append and raise the high-water mark |
| BoundedQueue.BoundedQueue.Pop | include/http/bounded_queue.hpp:44-57 | one critical section: wait, report drained, or take the front |
| BoundedQueue.BoundedQueue.Close | include/http/bounded_queue.hpp:59-66 | sets closed and nothing else |
| BoundedQueue.StepInv | include/http/bounded_queue.hpp:25-66 | every step of every thread, spurious wakeups included, keeps the wakeup and linearity invariant |
| BoundedQueue.RunInv | include/http/bounded_queue.hpp:25-66 | in every reachable state with a sleeping consumer, items are at most woken consumers plus pending notifications, dually for free slots and producers, and after close a broadcast is pending |
| BoundedQueue.NoLostWakeup | include/http/bounded_queue.hpp:25-66 | no reachable state strands a thread whose wait condition holds |
| BoundedQueue.QuiescentSleepersMustWait | include/http/bounded_queue.hpp:25-66 | when nothing moves, consumers sleep only on an open empty queue and producers only on an open full one |
| BoundedQueue.Fifo | include/http/bounded_queue.hpp:25-57 | items pushed are the items popped, in order, followed by those still queued |
| BoundedQueue.QueueIsLinear | include/http/bounded_queue.hpp:25-66 | every interleaving is a run of the sequential queue, first in first out, within capacity, the mark being its greatest length |
| BoundedQueue.CloseReleases | include/http/bounded_queue.hpp:59-66 | after close, calls already made take at most three steps each in any order |
| BoundedQueue.ClosedNeverStuck | include/http/bounded_queue.hpp:59-66 | after close, until all calls have returned some thread can step without a spurious wakeup |
| BoundedQueue.CallsSettle | include/http/bounded_queue.hpp:25-66 | open or closed, without new calls and spurious wakeups there are at most (4n+3)n steps among n threads |
| BoundedQueue.NoSleeperLeftBehind | include/http/bounded_queue.hpp:25-66 | when they are over, every thread has returned or sleeps on an open queue that is empty for it or full for it |
| QueueRefinement.StepRefines | include/http/bounded_queue.hpp:25-66 | every step of the queue's threads either decides one push, pop or close and is then the server model's single step for it, same change and same result, or is invisible |
| QueueRefinement.OtherStepsStutter | include/http/bounded_queue.hpp:25-66 | steps that decide no call leave the queue alone, and a call is pending only after it was made |
| QueueRefinement.OthersKeep | include/http/bounded_queue.hpp:25-66 | no step changes which call another thread has pending |
| QueueRefinement.ProgramStepRefines | src/worker_pool.cpp:58-134 | each step of server threads and queue calls running together is a step of the server's model or nothing to it, and so for the queue's |
| QueueRefinement.ProgramRefines | src/worker_pool.cpp:58-134 | whatever the two reach together, a run of the server's model and a run of the queue's model reach too, so what is proved of either holds of both together |
| ServerProtocol.Reasons.Bumped | src/worker_pool.cpp:143-173 | recording a reason raises its own counter by one and no other |
| ServerCustody.StepCustody | src/worker_pool.cpp:58-66 | every step keeps each descriptor in exactly one of queue, one hand, closed |
| ServerCustody.OnePlace | src/worker_pool.cpp:119-134 | in every reachable state the accepted descriptors are exactly those in one place, none queued or closed twice |
| ServerCustody.OpenDescriptors | src/worker_pool.cpp:58-66 | open descriptors are those queued and in hand, at most workers plus capacity plus threads accepting now |
| ServerAccounts.StepBalances | src/worker_pool.cpp:58-174 | every step keeps each counter behind by exactly the threads between the two updates |
| ServerAccounts.CountersNeverAhead | src/worker_pool.cpp:58-174 | nothing is counted before it happens and active stays between zero and the number of workers |
| ServerAccounts.ClosedMeansRequested | src/server.cpp:89-136 | the queue is closed only after shutdown was requested, so serve_one never throws for a closed pool |
| ServerAccounts.ShutdownDrains | src/worker_pool.cpp:68-75 | after a joining shutdown returned, nothing is queued or active, completed is the sum of the nine reasons, each reason counted exactly, and with no dispatch on its way dispatched is completed plus errors and accepted is dispatched plus rejected |
| ServerAccounts.ServeForeverAccounts | src/server.cpp:99-124 | after serve_forever returned with nobody accepting, accepted is dispatched plus rejected and every descriptor was closed exactly once |
| ServerShutdown.RunAnnounced | src/server.cpp:126-136 | a requested shutdown has closed the queue and written the pipe, or the asking thread is about to |
| ServerShutdown.ShutdownMovesExactly | src/server.cpp:99-136 | once requested, a step is possible if and only if some thread has neither finished nor waits for the network; with the pipe written, nor sits in accept |
| ServerShutdown.AcceptHangs | src/server.cpp:89-124 | a run after which shutdown is requested, the pipe readable and all workers gone, serve_forever is in accept and nothing can move |
| ServerShutdown.FullQueueMoves | src/worker_pool.cpp:58-66 | an acceptor blocked on a full queue always has a thread that can go on |
| ServerShutdown.StepShrinks | src/worker_pool.cpp:119-134 | after a request, every step lowers the work left in queue and threads |
| ServerShutdown.ShutdownEnds | src/server.cpp:99-124 | after a request, all calls and workers together take at most seven steps a queue slot and fifteen a thread, clients included |
| ServerShutdown.MovesAccepting | src/server.cpp:99-136 | after a request nobody enters accept any more and nobody leaves it without a client |
| ServerShutdown.ShutdownEndsExactly | src/server.cpp:99-136 | left to itself after a request the server halts within that bound, the threads unfinished then are those in accept at the request and, if the pipe could not be written, those in poll; with the pipe written all finish if and only if nobody was in accept |
| ServerControl.CallsProceed | src/server.cpp:89-136 | in every run a call throws only for the failure of poll or accept that it reports, serve_forever leaves its loop otherwise only for the joining shutdown and after a request or a readable pipe, and serve_one makes one pass |
| ServerControl.PollLeadsTo | src/server.cpp:105-121 | serve_forever accepts, requests shutdown or throws if and only if poll reports the listener, the pipe or a failure, and accepts only while the pipe is silent |
| ServerControl.AcceptLeadsTo | src/server.cpp:89-97 | what is accepted is new and is dispatched next by the call that accepted it |
| ServerControl.InterruptedPoll | src/server.cpp:107-110 | an interrupted poll goes round the loop, and to the joining shutdown once that is requested |
| ServerControl.RequestedOnce | src/server.cpp:126-136 | in every reachable state at most one caller is closing the queue or writing the pipe for a request, and none before there is one |
| ServerControl.ServingReturns | src/server.cpp:99-124 | a server with shutdown requested, left to itself until nothing moves: a thread then in serve_forever or its shutdown has returned with every worker gone, unless poll failed or it waits for the network |
| Descriptors.Fd.constructor | src/fd.cpp:9 | the object holds the number given |
| Descriptors.Fd.Moved | src/fd.cpp:15 | the new owner has the descriptor, the old one none |
| Descriptors.Fd.Release | src/fd.cpp:34-36 | gives the descriptor up unclosed; it becomes loose and ownership stays exclusive |
| Descriptors.Fd.Reset | src/fd.cpp:38-44 | closes the old descriptor unless it is the same; taking a loose one, the same or none keeps ownership exclusive and closes only what was open |
| Descriptors.Fd.Destroy | src/fd.cpp:11-13 | a descriptor still held is closed, and no other |
| Descriptors.Fd.Assign | src/fd.cpp:17-24 | closes the old descriptor and takes over the other's; onto itself it does nothing; ownership stays exclusive |
| Descriptors.PassOn | src/fd.cpp:15 | passing by value closes nothing and keeps ownership exclusive |
| Descriptors.Lifetime | src/fd.cpp:11-24 | through any number of owners a descriptor is closed once, by the last, and nothing else is closed |
| Polygon.CrossingIsMean | legacy/http-root-dir/cgi-src/imagemap.c:322-326 | where a straddling edge meets the ray is a weighted mean of its ends |
| Polygon.SameSideShortcut | legacy/http-root-dir/cgi-src/imagemap.c:337-344 | when both ends lie on one side in x, so does the crossing |
| Polygon.CountVertices | legacy/http-root-dir/cgi-src/imagemap.c:306-308 | the number of vertices is the index of the first sentinel |
| Polygon.CountEdge | legacy/http-root-dir/cgi-src/imagemap.c:316-327 | counts an edge exactly when it crosses the ray, dividing only when the ends lie on different sides |
| Polygon.PointInPoly | legacy/http-root-dir/cgi-src/imagemap.c:299-363 | the run-skipping loops decide the parity of the per-edge crossing count over all edges |
| Polygon.RotationInvariant | legacy/http-root-dir/cgi-src/imagemap.c:299-363 | starting at another vertex changes nothing |
| Polygon.ReversalInvariant | legacy/http-root-dir/cgi-src/imagemap.c:299-363 | walking the other way round changes nothing |
| Polygon.SubdivisionInvariant | legacy/http-root-dir/cgi-src/imagemap.c:299-363 | a vertex added anywhere on an edge changes nothing |
| Polygon.RayDirectionIrrelevant | legacy/http-root-dir/cgi-src/imagemap.c:299-363 | counting crossings on the other side gives the same verdict |
| Polygon.RectangleIs | legacy/http-root-dir/cgi-src/imagemap.c:299-363 | a rectangle holds exactly its inside with its right and upper sides |

## Left out

- Socket setup, `accept`, `poll`, the pipe and signal delivery as system calls: only their outcomes appear, as choices of the environment.
- C++ memory orders: each atomic operation is one sequentially consistent step, and nothing is claimed about `stats()` taken while threads run.
- Worker pool and server are modelled on values, one step per atomic operation, rather than as objects updated in place, since their methods interleave; the step form captures every order of updates.
- The sums `requests_served`, `bytes_read` and `bytes_written` of the pool: their updates are further independent additions in `record_result`.
- Failure to start a worker thread in the pool's constructor.
- Symbolic links and the disk: `weakly_canonical` is an arbitrary path function and files are a map; where there are no links it is the lexical resolver, and its errors other than a missing file are left out there.
- Canned error bodies and src/metrics.cpp: formatting without a hard property.
- Texts of parse faults: each is a constructor, with its kind.
- Locale effects of character tests: the C locale is assumed.
- `recv` and `send` against a real kernel: results are arbitrary within what the calls may return.
- PointInPoly: works in exact reals; the rounding of `double` is not modelled, and a vertex list without sentinel within the array is outside the C code's contract.
- LifetimeIsBounded: assumes a kernel that honours the armed timeouts and computation that takes no time, and so does `ClosesInTime`.
- The other legacy programs, tests, benchmarks and scripts.
