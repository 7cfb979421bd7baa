# A verified model of the mudou reactor and its HTTP server

The repository is a reactor in the style of muduo: one event loop per thread, channels over epoll,
connections with input and output buffers, a timer wheel that releases inactive connections, and an
HTTP server on top. `source/` is the complete version; `src/` is a partial rewrite. This project
models both in Dafny and proves what they are for.

* **HTTP parsing** (`HttpMessage`, `HttpAutomaton`, `HttpParser`, `HttpService`, `HttpRoundTrip`, `HttpWire`).
  The reference is an automaton that reads one byte at a time. The resumable parser over the
  compacting buffer, `OnMessage`, and the `OnMessage`/`ShutdownInLoop` recursion are methods proved
  against it. Hence no cutting of the byte stream matters, up to the first error, and
  `CutsDoNotMatterExactly` says exactly when the whole outcome is the same. Malformed
  Content-Length values are included: `std::stol` throwing is an outcome (`threw`), and a negative
  length wraps to a huge `size_t`, as in the source. `HttpWire` says what is accepted and refused in
  literal bytes, sizes and status codes.
* **Timer wheel** (`TimerSpec`, `TimerWheels`, `Inactivity`). A class with slots of references and
  weak references, proved to be a map from ids to deadlines over any interleaving of operations; on
  that map, the exactly-once theorems and the release of inactive connections.
* **Event loop** (`LoopWakeup`, `LoopDispatch`). The task queue and the eventfd as a step machine
  with any number of producers and both wake rules of the repository; polling, dispatch and the
  running of tasks as classes that follow a machine over registry, queue and open descriptors. In no run is a
  channel dispatched when it is gone, exactly because releases are queued (`DeferralExactly`).
* **Connection** (`HttpService.Connection`). Conservation of output bytes, write interest, graceful
  close, and a driver `Serve` for any sequence of dispatches: what is handled, answered and sent, and
  that a half-closed connection with nothing left to send has been handed to the release queue.
* **Codecs and containers** (`Text`, `UrlCodec`, `PathCheck`, `ByteBuffer`, `PrependBuffer`,
  `EpollMirror`, `RoundRobin`).

## How the program appears here

A C++ `char` is a Dafny `char`; the bytes are its first 256 values. `size_t` indices and counters
are unbounded, except where wrapping shows: Content-Length, `std::stol`, the `char` arithmetic of
the percent codec and the timer delays (bounded so that `_tick + delay` fits an `int`).
`std::regex_match` on the request line is a direct parse that is proved to be the meaning of the
pattern. `HttpServer::OnMessage` is a method of `Connection`, whose callback it is. Calls made
through `RunInLoop` on the loop thread run at once, as they do there. System calls are parameters:
what `recv` delivered, how much `send` took, what `epoll_wait` reported. Routing, the error page and
the order in which a response prints its header map are parameters of `Site`.

## Where code and comments differ

The code is followed in each case.

* `UrlEncode` is described as RFC 3986 encoding, but formats a signed `char` into four bytes, so
  every byte from 128 up becomes `%FF` (`UrlRoundTrip` gives the exact set that survives).
* `ValidPath` is described as counting directory depth, but counts `.` as one level down, so that it
  accepts `/./..` (`DotDeceives`). It can be relied on exactly for components without `.`
  (`ReliableExactly`).
* The wheel's capacity is described as the largest delay; a longer delay wraps around and 0 acts
  as 60 (`DelayIsKept`).
* `EPollPoller::updateChannel` announces updating or deleting an added channel, and deletes it exactly when its mask is the read mask.
* Enabling the release of inactive connections is described as starting it with the given delay. A
  timer that is left is only refreshed: a cancelled one stays cancelled, another delay stays
  (`EnablingExactly`).
* The poller's map is meant to mirror the kernel's set. An interest change of a channel that has been
  released enters its closed descriptor into the map while the ADD fails, and the next connection on
  that descriptor is never watched (`MirroredExactly`, `StrayStarves`).
* After a parse error the rest of the buffer is thrown away and the next chunk is parsed afresh, so
  what follows the first error does depend on the cut (`CutsCanMatter`).

## Model

| member | source | states |
|---|---|---|
| HttpAutomaton.ChunkingIndependence | source/http.hpp:918-956 | for every stream and every cut into chunks, the events up to and including the first error are those of the uncut stream, and without an error so is the final configuration |
| HttpAutomaton.CutsDoNotMatterExactly | source/http.hpp:930-938 | every cut of a stream gives the same outcome as one piece if and only if no error occurs before its last byte |
| HttpAutomaton.CutsCanMatter | source/http.hpp:930-938 | a concrete stream whose outcome depends on the cut: a bad line followed by another byte |
| HttpAutomaton.NoFailureNoDifference | source/http.hpp:918-956 | without an early error, delivery in chunks equals delivery in one piece, from any configuration |
| HttpAutomaton.FailureShows | source/http.hpp:930-938 | cutting a stream right after its first error always shows in the outcome |
| HttpAutomaton.NeverIdle | source/http.hpp:728-741 | some bytes without an event never leave the parser in its initial state |
| HttpAutomaton.RunConcat | source/http.hpp:728-741 | reading two parts is reading the first and going on with the second from where it ended |
| HttpAutomaton.RunPartial | source/http.hpp:600-611 | bytes without a newline pile up to 8192 and then give 414, byte for byte |
| HttpAutomaton.RunLine | source/http.hpp:593-626 | a complete line is judged as a line however it was accumulated, too long or not |
| HttpAutomaton.RunBody | source/http.hpp:711-713 | body bytes short of Content-Length are collected |
| HttpAutomaton.RunBodyFull | source/http.hpp:703-709 | exactly the byte that completes the body completes the request, the rest is left |
| HttpAutomaton.RunRests | source/http.hpp:687-714 | between deliveries the parser rests: partial line of at most 8192 bytes without newline, or body shorter than Content-Length with nothing unread |
| HttpAutomaton.OnlyTwoCodes | source/http.hpp:553-686 | whatever is read, an error is 400 or 414 |
| HttpAutomaton.Requeue | source/http.hpp:600-611 | looking again at the unread bytes changes nothing |
| HttpAutomaton.RequeueThen | source/http.hpp:918-927 | parsing unread bytes plus a new chunk from the start of the line is reading on |
| HttpParser.HttpRequest.ReSet | source/http.hpp:389-399 | the blank request with version HTTP/1.1 |
| HttpParser.HttpRequest.SetHeader | source/http.hpp:401-404 | the first value of a header stays, other headers are untouched |
| HttpParser.HttpRequest.SetParam | source/http.hpp:426-429 | the first value of a parameter stays, other parameters are untouched |
| HttpParser.HttpContext.constructor | source/http.hpp:717-717 | a context starts in the initial state |
| HttpParser.HttpContext.ReSet | source/http.hpp:718-723 | a reset context is the initial one |
| HttpParser.HttpContext.ParseHttpLine | source/http.hpp:549-592 | success, error 400 and the request left behind, also when a query piece fails half-way |
| HttpParser.HttpContext.ParseQuery | source/http.hpp:578-590 | the loop over query pieces, with what was inserted before a failing piece |
| HttpParser.HttpContext.ParseHttpHead | source/http.hpp:668-686 | one header line: first value wins, or error 400 |
| HttpParser.HttpContext.AwaitLine | source/http.hpp:600-611 | without a full line either the buffer is at rest or 414 is raised, as the automaton does |
| HttpParser.HttpContext.RecvHttpLine | source/http.hpp:593-626 | leaves everything still to come unchanged; either at rest, in error, or past a consumed line |
| HttpParser.HttpContext.RecvHttpHead | source/http.hpp:627-667 | leaves everything still to come unchanged over any number of header lines |
| HttpParser.HttpContext.RecvHeadLine | source/http.hpp:632-663 | one turn of that loop: a header, the blank line, an error, or a buffer at rest |
| HttpParser.HttpContext.RecvHttpBody | source/http.hpp:687-714 | leaves everything still to come unchanged; throws exactly on an unreadable Content-Length; completing a body consumes at least one byte |
| HttpParser.HttpContext.RecvHttpRequest | source/http.hpp:728-741 | one call of the fall-through switch: a request, an error or an exception of the automaton, or a buffer at rest; a completed request strictly shrinks the buffer |
| HttpService.Connection.OnMessage | source/http.hpp:918-956 | the events handled, their order, their answers, the status and the final parser state are those of the automaton on the buffered bytes; it terminates although it recurses through Shutdown |
| HttpService.Connection.Round | source/http.hpp:920-954 | one turn of the loop either finishes the delivery or leaves exactly its rest, with fewer bytes |
| HttpService.Connection.HandleParsed | source/http.hpp:930-953 | the same for the part after parsing: an error, an incomplete request, or a request to answer |
| HttpService.Connection.Reject | source/http.hpp:930-938 | an error is answered, the buffer emptied, the context reset and the connection half-closed |
| HttpService.Connection.Refuse | source/http.hpp:932-936 | the answer to the error, which carries its status 400 or 414 and the page for it as HTML, an empty buffer and a fresh context |
| HttpService.Connection.Respond | source/http.hpp:945-951 | the completed request is answered and the parser made ready for what is buffered behind it |
| HttpService.Connection.Reply | source/http.hpp:945-953 | a request is answered once and the rest of the buffer is still owed, or handled by the recursion |
| HttpService.Connection.CloseAfter | source/http.hpp:952-953 | the recursion through Shutdown handles the same events in the same order as the loop would |
| HttpService.Connection.WriteResponse | source/http.hpp:777-811 | the completed response is accepted for sending and logged |
| HttpService.Connection.ShutdownInLoop | source/server.hpp:925-939 | half-closes, handles what is buffered, and asks for release when nothing is unsent |
| HttpService.Connection.AwaitDrain | source/server.hpp:930-938 | unsent output is waited for, otherwise exactly one release is requested |
| HttpService.Connection.SendInLoop | source/server.hpp:917-923 | output bytes are conserved, write interest follows, and a released connection accepts nothing |
| HttpService.Connection.Send | source/server.hpp:999-1005 | data sent on the loop thread is accepted at the end of the output |
| HttpService.Connection.Release | source/server.hpp:1010-1012 | one more release is queued; on the shutdown and drain paths nothing accepted is unsent then |
| HttpService.Connection.EstablishedInLoop | source/server.hpp:893-900 | connected, with read interest |
| HttpService.Connection.HandleRead | source/server.hpp:837-853 | a chunk is read on from the resting parser; a receive error half-closes |
| HttpService.Connection.HandleWrite | source/server.hpp:855-874 | a socket with room for everything waiting takes it all, one with less takes exactly that much, an error takes nothing; interest is dropped exactly when it is drained, and only a half-closed drained connection is released |
| HttpService.Connection.Drain | source/server.hpp:865-872 | the same for a successful send |
| HttpService.Connection.HandleClose | source/server.hpp:876-886 | the leftover bytes give no further event and a release is requested |
| HttpService.Connection.HandleEvent | source/server.hpp:356-369 | reading first, then one of writing, error and hang-up, with their effects on log, output and releases |
| HttpService.Connection.HandleOthers | source/server.hpp:361-367 | of writing, error and hang-up one is handled, and nothing of what was read is disturbed |
| HttpService.Connection.ReleaseInLoop | source/server.hpp:902-904 | the connection is disconnected and output stays conserved |
| HttpService.Connection.Serve | source/server.hpp:837-939 | from establishment on, over any dispatches: handled requests are those of the received byte stream; sent plus waiting bytes are exactly the answers to them in order; as many bytes were sent as the socket had room for at each write; it is half-closed exactly by a receive error or an event that closes, and a half-closed connection with nothing to send, or one with an error or hang-up, has been handed to the release queue |
| HttpService.Connection.DispatchAll | source/server.hpp:640-652 | after any dispatches the log, the accepted output, the number of bytes sent and the parser are those of the run of dispatches, and no half-closed connection is stuck |
| HttpService.Connection.DispatchNext | source/server.hpp:356-369 | the same for one dispatch |
| HttpService.ServedIsDelivery | source/server.hpp:837-853 | the events of a run of dispatches are those of delivering the received chunks |
| HttpService.HalfClosedExactly | source/server.hpp:925-926 | a run half-closes the connection exactly by a receive error or an event that closes |
| HttpService.ClosesExactly | source/http.hpp:463-471 | an answered request ends the connection unless the handler, or if it is silent the request, says exactly `Connection: keep-alive`; an error always does |
| HttpService.CompletedExactly | source/http.hpp:780-799 | Connection, Content-Length, Content-Type and Location of a completed response, each kept if the handler set it |
| HttpService.CompletedKeeps | source/http.hpp:780-799 | no other field is touched |
| HttpService.ErrorReplyExactly | source/http.hpp:929-934 | the answer to an error is a response with its status, the error page for it as text/html, the length and the Connection field, and nothing else |
| HttpService.ChunksExactly | source/server.hpp:837-853 | the chunks are what the readable dispatches without receive error brought, in order |
| HttpService.AnswersConcat | source/http.hpp:920-954 | answers to more events follow the answers to the earlier ones |
| HttpRoundTrip.RequestRoundTrip | source/http.hpp:549-714 | a printed request followed by anything is read as exactly that request, the following bytes untouched |
| HttpRoundTrip.PipelineRoundTrip | source/http.hpp:920-954 | a pipeline of printed requests comes out as those requests and ends at the start |
| HttpRoundTrip.PipelineInAnyChunks | source/http.hpp:918-956 | and that under every cut into chunks |
| HttpRoundTrip.RequestLineRoundTrip | source/http.hpp:549-592 | the printed request line gives back verb, path, version and parameters |
| HttpRoundTrip.QueryRoundTrip | source/http.hpp:573-590 | joined encoded pairs are split, found and decoded into exactly the pairs, the first of a repeated key winning |
| HttpRoundTrip.PieceRoundTrip | source/http.hpp:580-589 | one printed pair is read back as its key and value |
| HttpRoundTrip.HeaderRoundTrip | source/http.hpp:668-686 | a printed header line is read back as its key and value |
| HttpRoundTrip.HeadersRoundTrip | source/http.hpp:632-663 | any number of printed header lines, the first of a repeated key winning |
| HttpRoundTrip.BodyRoundTrip | source/http.hpp:687-714 | a body of the announced length, also an empty one, completes the request and leaves the rest |
| HttpRoundTrip.StolDecimal | source/http.hpp:451-461 | a printed size below 2^63 is read back |
| HttpRoundTrip.PrintedLength | source/http.hpp:451-461 | the printed headers announce the size of the body |
| HttpRoundTrip.ResponseLength | source/http.hpp:788-791 | a response without a length of its own gets the size of its body |
| HttpRoundTrip.CloseFollowsRequest | source/http.hpp:463-471 | a handler that says nothing leaves the connection open exactly when the request has `Connection: keep-alive`; a missing field closes |
| HttpWire.RequestLineExactly | source/http.hpp:551-558 | a line is matched exactly when it is GET, HEAD, POST, PUT or DELETE, a path, perhaps a query on one line, and HTTP/1.0 or HTTP/1.1, letters in any case, with an ending or none; any other leaves the request as it was |
| HttpWire.WrittenIsRead | source/http.hpp:563-576 | the request gets the verb in capitals, the decoded path with `+` kept, the version as it stands, and the query |
| HttpWire.VerbExactly | source/http.hpp:552-552 | the five verbs in any letter case and no others |
| HttpWire.VersionExactly | source/http.hpp:552-552 | the two versions in any letter case and no others |
| HttpWire.PieceExactly | source/http.hpp:578-590 | a query piece is cut at its first `=` and both halves decoded with `+` for a space; without `=` it is refused |
| HttpWire.HeaderExactly | source/http.hpp:668-686 | a header line with either ending is cut at its first colon and space; without one it is refused |
| HttpWire.HeadEndsExactly | source/http.hpp:645-663 | the head ends with an empty line of either ending; longer than 8192 is 414, a line that is no header 400 |
| HttpWire.FirstLineExactly | source/http.hpp:612-626 | the first line is 414 when longer than 8192, 400 when it is not a request line or a query piece fails, and otherwise leads to the head |
| HttpWire.StolReads | source/http.hpp:451-461 | white space, a sign and digits are read, what follows is ignored, and a value outside 64 bits throws |
| HttpWire.StolThrows | source/http.hpp:451-461 | without a digit after that it throws |
| HttpWire.LengthReads | source/http.hpp:451-461 | an absent length is 0 and a negative one wraps around 2 to the 64 |
| HttpWire.DecimalIsPlain | source/http.hpp:788-791 | a printed size is its decimal digits without leading zero |
| HttpWire.PrintableExactly | source/http.hpp:549-714 | which messages the round trips cover, in literal verbs, versions, bytes and sizes |
| HttpMessage.RequestLineMeaning | source/http.hpp:551-576 | a line matches the pattern exactly when the direct parse succeeds, with the same groups |
| HttpMessage.MatchLineComplete | source/http.hpp:552-553 | any decomposition by the pattern is the one the direct parse finds, so there is at most one |
| HttpMessage.MatchLineSound | source/http.hpp:552-553 | what the direct parse finds is a decomposition by the pattern |
| Text.Split | source/http.hpp:164-188 | appends the non-empty pieces of naive left-to-right splitting, and terminates |
| Text.JoinPieces | source/http.hpp:164-188 | joining the pieces gives the text back |
| Text.NonEmptyExactly | source/http.hpp:164-188 | exactly the empty pieces are dropped, and the others keep their order |
| Text.PiecesJoin | source/http.hpp:576-576 | splitting at a character undoes joining with it |
| Text.Find | source/http.hpp:170-170 | the first occurrence at or after a position, or none |
| UrlCodec.UrlEncode | source/http.hpp:237-259 | the loop computes the character-wise encoding |
| UrlCodec.UrlDecode | source/http.hpp:276-299 | the loop computes the decoding, skipping two digits after a percent sign |
| UrlCodec.UrlRoundTrip | source/http.hpp:237-299 | decoding undoes encoding exactly for texts over the bytes 0 to 127 and 255 |
| UrlCodec.DecodeEncode | source/http.hpp:237-299 | what any text becomes: every other byte comes back as 255 |
| UrlCodec.PercentHexForm | source/http.hpp:253-256 | two hexadecimal digits below 128, and `%FF` for every byte from 128 up |
| UrlCodec.EscapeExactly | source/http.hpp:285-293 | a percent sign and two hexadecimal digits in either letter case are decoded to the byte they name |
| UrlCodec.HexToIExactly | source/http.hpp:260-275 | letters beyond f go on counting in either case, and anything but letters and digits is -1 |
| UrlCodec.PlainExactly | source/http.hpp:280-296 | every other character stands for itself, `+` for a space where asked, and so does an escape cut short |
| UrlCodec.EncodeExactly | source/http.hpp:240-257 | letters, digits and `-._~` are left alone, a space may become `+`, bytes below 128 become two digits and all others `%FF` |
| UrlCodec.HexByteValue | source/http.hpp:260-289 | two hexadecimal digits as the encoder prints them decode to sixteen times the first plus the second |
| UrlCodec.EncodedIsPlain | source/http.hpp:240-257 | encoded text consists of unreserved characters, percent and plus only |
| PathCheck.ValidPath | source/http.hpp:356-374 | the loop computes whether the counted level stays non-negative |
| PathCheck.LevelsAreDepth | source/http.hpp:361-373 | without `.` components the check is exactly the directory walk that never leaves the root |
| PathCheck.InsideIsAccepted | source/http.hpp:361-373 | no path that stays inside the root is refused |
| PathCheck.DotDeceives | source/http.hpp:371-371 | the path `/./..` splits into `.` and `..`, is accepted and leaves the root |
| PathCheck.ReliableExactly | source/http.hpp:361-373 | wherever these components stand in a path without another `.`, the check agrees with the directory walk, if and only if there is no `.` among them |
| PathCheck.DotLeaves | source/http.hpp:361-373 | every inside path with a `.` component continues to one that is accepted and leaves the root |
| ByteBuffer.Buffer.constructor | source/server.hpp:51-51 | an empty queue |
| ByteBuffer.Buffer.MoveReadOffset | source/server.hpp:64-69 | drops the oldest bytes |
| ByteBuffer.Buffer.MoveWriteOffset | source/server.hpp:71-75 | makes the bytes behind the readable ones readable |
| ByteBuffer.Buffer.EnsureWriteSpace | source/server.hpp:77-92 | readable bytes unchanged, enough room behind them; when it does nothing, compacts or grows |
| ByteBuffer.Buffer.Write | source/server.hpp:94-100 | places the bytes behind the readable ones |
| ByteBuffer.Buffer.WriteAndPush | source/server.hpp:101-104 | appends to the queue |
| ByteBuffer.Buffer.WriteBufferAndPush | source/server.hpp:112-118 | appends the readable bytes of another buffer |
| ByteBuffer.Buffer.ReadAsString | source/server.hpp:129-136 | the oldest bytes |
| ByteBuffer.Buffer.ReadAsStringAndPop | source/server.hpp:137-142 | takes the oldest bytes off the queue |
| ByteBuffer.Buffer.FindCRLF | source/server.hpp:143-146 | the first readable newline |
| ByteBuffer.Buffer.GetLine | source/server.hpp:148-155 | the first line with its newline |
| ByteBuffer.Buffer.GetLineAndPop | source/server.hpp:156-160 | takes the first line off; empty exactly when no newline is readable |
| ByteBuffer.Buffer.Clear | source/server.hpp:162-166 | empties the queue and returns both indices to zero |
| TimerSpec.FiresAtDeadline | source/server.hpp:449-466 | left alone, a timer's callback runs exactly once at its deadline, never if cancelled, and its id is known exactly until then |
| TimerSpec.FiresAfterDelay | source/server.hpp:525-542 | after the last add or refresh the callback runs exactly once, delay ticks later, for delays 1 to 60 |
| TimerSpec.FiresAtMostOnce | source/server.hpp:449-466 | under any refreshes and cancellations one add gives at most one run of the callback |
| TimerSpec.CancelledNeverFires | source/server.hpp:543-550 | once cancelled, never, whatever refreshes follow |
| TimerSpec.UnknownIsSilent | source/server.hpp:532-550 | an unknown id stays unknown and silent until it is added |
| TimerSpec.DelayIsKept | source/server.hpp:528-528 | the wheel keeps a delay exactly when it is between 1 and 60 |
| TimerSpec.DelayWraps | source/server.hpp:528-528 | a longer delay loses its whole turns of 60 ticks, and 0 takes one |
| TimerSpec.DelayFits | source/server.hpp:528-528 | which delays keep `_tick + delay` within an int |
| TimerSpec.FreshExactly | source/server.hpp:525-531 | which operation sequences the wheel is proved for: only adding is restricted, to unknown ids and delays that fit |
| TimerSpec.StepSound | source/server.hpp:514-550 | deadlines stay in the future, no further than the delay reaches |
| TimerWheels.SlotClears | source/server.hpp:528-529 | the slot chosen for a delay is cleared when that delay is over |
| TimerWheels.PushKeepsLinks | source/server.hpp:528-541 | another reference moves the deadline of its id and keeps slots, weak references and deadlines in agreement |
| TimerWheels.DueMeansUnheld | source/server.hpp:514-517 | after clearing a slot, a timer is unheld exactly when its deadline has come |
| TimerWheels.TickKeepsLinks | source/server.hpp:514-517 | clearing a slot and forgetting what was due keeps the agreement |
| TimerWheels.TimerWheel.KnownIsLive | source/server.hpp:538-538 | every known id has a live object, so `lock()` is never null |
| TimerWheels.TimerWheel.Lock | source/server.hpp:538-538 | null exactly when no slot holds the object |
| TimerWheels.TimerWheel.TimerAddInLoop | source/server.hpp:525-531 | adds the id with its deadline to the map |
| TimerWheels.TimerWheel.TimerRefreshInLoop | source/server.hpp:532-542 | moves the deadline; unknown ids are ignored; the unchecked dereference is safe |
| TimerWheels.TimerWheel.TimerCancelInLoop | source/server.hpp:543-550 | sets the flag and keeps id and deadline |
| TimerWheels.TimerWheel.Destroy | source/server.hpp:459-462 | the destructor runs the callback unless cancelled and erases the id |
| TimerWheels.TimerWheel.RunTimerTask | source/server.hpp:514-517 | what is due leaves the map, and exactly the due, uncancelled callbacks run, once each |
| TimerWheels.TimerWheel.DropAll | source/server.hpp:516-516 | dropping a slot's references destroys exactly the timers held nowhere else |
| TimerWheels.TimerWheel.OnTime | source/server.hpp:518-524 | one step of the hand for each reported expiry |
| TimerWheels.TimerWheel.Execute | Test/example/timewheel.cc:61-100 | over any interleaving with fresh ids the wheel is the map of deadlines and every callback runs at exactly its prescribed ticks |
| Inactivity.ActivityThenSilence | source/server.hpp:888-891 | after any history, the last event, enabling or re-enabling of a running timer and then silence queue the release exactly when the delay is over |
| Inactivity.InactiveIsReleasedOnTime | source/server.hpp:941-950 | an inactive, uncancelled, unreleased connection has its release queued exactly once, at its due tick |
| Inactivity.EnablingExactly | source/server.hpp:941-950 | enabling makes the release come that many ticks later if and only if no timer is left in the wheel and the delay is 1 to 60, or one is left that is uncancelled and has that delay |
| Inactivity.ReleasedIsSilent | source/server.hpp:902-911 | after ReleaseInLoop the timer callback is never invoked |
| Inactivity.GoneIsSilent | source/server.hpp:951-956 | nor for any id that is cancelled or out of the wheel, until it is enabled again |
| Inactivity.CancelledIsSilent | source/server.hpp:951-956 | a cancelling by the user, which is always possible, silences the timer until the connection is enabled again |
| Inactivity.AnythingMayHappen | source/server.hpp:941-956 | a connection that is not released can be active, enabled, cancelled and released in any state |
| Inactivity.ApplyKeepsInv | source/server.hpp:941-956 | every action keeps flags and timers consistent: timers are due at last activity plus delay, cancelled exactly by user or release, and otherwise known until they have queued the release |
| LoopWakeup.NoLostWakeup | src/EventLoop.cc:108-119 | over every interleaving the loop never blocks with work or a quit request and no wakeup coming, for both rules of the repository, and not for the rule without the calling flag |
| LoopWakeup.LostWithoutCalling | src/EventLoop.cc:117-118 | the run that loses a wakeup when the calling flag is left out |
| LoopWakeup.WakeStep | src/EventLoop.cc:59-174 | every step of every thread keeps the wakeup invariant |
| LoopWakeup.WorkGetsThrough | src/EventLoop.cc:121-140 | with work to do, the poll can return at once or after one pending write |
| LoopWakeup.QuitExactly | src/EventLoop.cc:66-99 | after any run the loop leaves at its next check, or has left, exactly when a producer or user code asked it to quit |
| LoopWakeup.NoPollAfterQuit | src/EventLoop.cc:89-99 | once asked for, no later check leads back to the poll |
| LoopWakeup.StateIsTold | src/EventLoop.cc:59-174 | after any run counter, flags, queue history and batch numbers are what the sequence of actions makes them |
| LoopWakeup.NobodyIsStuck | src/EventLoop.cc:59-174 | every producer can take its next step, and so can the loop until it has left |
| LoopWakeup.ExactlyOnceInOrder | source/server.hpp:585-595 | executed, rest of the batch and pending are everything ever queued, in order; what is queued during a batch runs in a later one |
| LoopWakeup.FifoStep | src/EventLoop.cc:158-174 | every step of every thread keeps that |
| LoopDispatch.DeferralExactly | source/server.hpp:1010-1012 | over every run no channel is dispatched when it is unregistered, nor after its release unless an interest change was stray, if and only if releases are queued |
| LoopDispatch.GoneWithoutDeferral | source/server.hpp:640-652 | the run in which a release at once makes an active channel be dispatched unregistered and released |
| LoopDispatch.RoundsSafe | source/server.hpp:640-652 | over any turns every reported channel is handled, in order; none is gone then; releases carried out and queued are those asked for, in order |
| LoopDispatch.TurnSafe | source/server.hpp:640-652 | one turn keeps that, and carries out every release asked for before it |
| LoopDispatch.TurnDeferred | source/server.hpp:640-652 | what one turn handles, releases and leaves in the queue |
| LoopDispatch.JobsQueue | source/server.hpp:646-648 | during dispatch nothing is unregistered or released, and the handlers' tasks queue in order |
| LoopDispatch.TasksRelease | source/server.hpp:585-595 | exactly the releases of a batch are carried out, in order, and its functors queue for the next turn |
| LoopDispatch.MirroredExactly | source/server.hpp:408-424 | in every run what the kernel watches is mapped, and the map has mirrored the kernel's set at every moment if and only if no interest change was stray |
| LoopDispatch.UpdateMirrors | source/server.hpp:408-415 | an interest change keeps the mirror exactly when its descriptor is registered, or open and not of a released channel |
| LoopDispatch.ReleaseSound | source/server.hpp:902-908 | a release keeps the registry sound, and the mirror if there is one |
| LoopDispatch.StrayStarves | source/server.hpp:906-908 | a run with a change after the release: the map keeps the closed descriptor and the next connection on it is never watched |
| LoopDispatch.Poller.UpdateEvent | source/server.hpp:408-415 | a mapped descriptor keeps its channel, and the kernel has the new mask whenever it accepts the call |
| LoopDispatch.Poller.RemoveEvent | source/server.hpp:418-424 | forgets the descriptor in both places |
| LoopDispatch.Poller.Poll | source/server.hpp:426-443 | the lookup of a reported descriptor never fails |
| LoopDispatch.Poller.Update | source/server.hpp:379-390 | what the kernel does with each operation, on open and closed descriptors |
| LoopDispatch.EventLoop.constructor | source/server.hpp:630-638 | a new loop watches its eventfd and its timerfd |
| LoopDispatch.EventLoop.ReleaseInLoop | source/server.hpp:902-908 | the channel is removed, its descriptor closed and no longer watched |
| LoopDispatch.EventLoop.Perform | source/server.hpp:661-680 | user code changes registry and queue as the machine does: nothing is unregistered, tasks join the queue's end |
| LoopDispatch.EventLoop.HandleEvent | source/server.hpp:646-648 | the handlers of one channel, and whether it was registered then |
| LoopDispatch.EventLoop.RunAllTask | source/server.hpp:585-595 | exactly the queued releases are carried out, in order, and the new queue is what the batch's functors queued |
| LoopDispatch.EventLoop.Turn | source/server.hpp:640-652 | every reported channel is handled in order; then the releases queued before or meanwhile happen; the queue and the registry afterwards |
| LoopDispatch.EventLoop.Start | source/server.hpp:640-652 | over any number of turns: every reported channel is handled, none of them gone, releases done and queued are those asked for, and registry and queue are those of the machine |
| EpollMirror.EPollPoller.UpdateChannel | src/EPollPoller.cc:60-87 | ADD, MOD and DEL are legal whenever issued, the index mirrors the kernel, and an added channel with the read mask is deregistered |
| EpollMirror.EPollPoller.UpdateTwiceForReading | src/EPollPoller.cc:60-87 | a second update with the read mask deregisters the channel the first one registered |
| EpollMirror.EPollPoller.RemoveChannel | src/EPollPoller.cc:88-99 | the channel is new again and known nowhere |
| EpollMirror.EPollPoller.Update | src/EPollPoller.cc:112-126 | what the kernel does with each operation |
| PrependBuffer.Buffer.constructor | src/Buffer.h:14-18 | an empty queue behind eight reserved bytes |
| PrependBuffer.Buffer.Retrieve | src/Buffer.h:42-52 | drops bytes, and resets when asked for all or more |
| PrependBuffer.Buffer.RetrieveAll | src/Buffer.h:54-57 | empties the queue |
| PrependBuffer.Buffer.RetrieveAsString | src/Buffer.h:65-70 | takes bytes off the queue |
| PrependBuffer.Buffer.RetrieveAllAsString | src/Buffer.h:60-63 | takes everything off the queue |
| PrependBuffer.Buffer.MakeSpace | src/Buffer.h:113-128 | readable bytes unchanged, enough room; compacts only when the reader is past the reserve |
| PrependBuffer.Buffer.EnsureWriteableBytes | src/Buffer.h:73-79 | enough room, readable bytes unchanged |
| PrependBuffer.Buffer.Append | src/Buffer.h:82-87 | appends to the queue |
| PrependBuffer.Buffer.ReadFd | src/Buffer.cc:11-41 | exactly the bytes that arrived are appended, also across the overflow area |
| RoundRobin.LoopThreadPool.NextLoop | source/server.hpp:740-746 | the modulo form goes round the loops, starting with the second |
| RoundRobin.EventLoopThreadPool.GetNextLoop | src/EventLoopThreadPool.cc:36-51 | the wrap-to-zero form goes round the same way, starting with the first |
| RoundRobin.SuccIsModulo | source/server.hpp:744-744 | the two forms of a step agree |
| RoundRobin.ChoiceShift | src/EventLoopThreadPool.cc:40-48 | what follows after some calls is a round starting at the loop reached, so the two pools differ only in their offset |
| RoundRobin.Balanced | source/server.hpp:740-746 | any n calls choose every loop once, and k calls k / n times or once more |

## Left out

- TimerWheels.TimerWheel.TimerAddInLoop: requires an unknown id and a delay that keeps `_tick + delay` within an int; both callers draw fresh ids (source/server.hpp:945-949, source/server.hpp:1085-1090), and re-adding a live id would let the old object's release erase the new entry.
- Text.Split: requires a non-empty separator, because the source does not terminate on an empty one.
- LoopDispatch.EventLoop.ReleaseInLoop: the user's and the server's closed callbacks, which run inside the release; what they queue can be shown as a functor queued next to it.
- LoopDispatch.EventLoop.Start: descriptors that other loops close are not shown; each loop has its own poller.
- TimerWheels.TimerWheel.Execute: covers the operation sequences in which an added id is unknown, for the reason given for TimerAddInLoop.
- HttpService.Connection.WriteResponse: the text layout of a response is the parameter `render`; which fields it has is not.
- HttpService.Connection.EstablishedInLoop: the connected callback, which installs a fresh context, is part of the constructor here.
- PrependBuffer.Buffer.RetrieveAsString: requires at most the readable length; the source reads past the written bytes when asked for more, and its callers do not ask.
- HttpService.Connection.OnMessage: says nothing about output when the connection was already released, because then SendInLoop drops it until Shutdown overwrites the status.
- ByteBuffer.Buffer.WriteBufferAndPush: requires another buffer; appending a buffer to itself is not used.
- HttpService.Connection.HandleEvent: the timer refresh at its end is in Inactivity, where connections and timers meet.
- HttpService.Connection.ReleaseInLoop: removing the channel is in LoopDispatch, cancelling the timer in Inactivity; closing the socket is a system call.
- HttpService.Connection.Send: calls from other threads are not shown; they become queued functors, whose order and execution LoopWakeup covers.
- Timer callbacks that call back into the wheel: the callback of a connection only queues a task.
- Use of a connection after a second queued release, and `Upgrade`, `Any` and the user callbacks.
- TcpServer's connection table and the acceptor: insert and erase in a map.
- Sockets, addresses, threads, logging, file serving, MIME and status tables, the error page's text: lookups and plumbing.
- Regular-expression routes and user handlers: a parameter that does not touch buffers, parser or wheel.
- 64-bit wrap-around of connection ids, buffer indices and the eventfd counter, and recursion depth.
- `quit` before `loop` starts, which the start of `loop` overwrites (src/EventLoop.cc:61-62).
- `src/TcpServer.cc` and `src/Channel.cc` update and remove: their connection class is missing and their bodies are commented out.
