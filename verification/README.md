# Net logging, modelled and proved in Dafny

The component formats log lines on an ESP32, copies each line under a mutex into up to six bounded
message buffers, and lets a reader per buffer pass the lines on: an HTTP server that streams
server-sent events to browsers, and a multicast sender. This project models that as one concurrent
system and proves what arrives, in every interleaving of loggers, buffer owners, the server task,
the event loop and the task that stops the server.

## Layout

| file | models |
|---|---|
| `MessageBuffers.dfy` | FreeRTOS message buffers as bounded lossy FIFOs with their history |
| `Registry.dfy` | the slot array of `src/net_logging.c`: functions on the slots, and the class `NetLogging` with the loops of the C code |
| `Hub.dfy` | registry, mutex, live buffers and log as shared state; one event per atomic step of a logger or of a buffer's owner |
| `SocketSend.dfy` | the partial-write loop `socket_send` |
| `Keepalive.dfy` | the 32-bit keepalive test and the page's watchdog |
| `EventStream.dfy` | the frames the server writes and the event-stream parser of the HTML Standard, sections 9.2.5 and 9.2.6 |
| `Server.dfy` | the SSE server task as a step relation, with init, run, stop, wait and deinit |
| `ServerInvariant.dfy` | the invariant of the whole system, step by step |
| `ServerTheorems.dfy` | what follows from it: end-to-end delivery, table and registry, restarts, stop and deinit, network changes |
| `ServerActivity.dfy` | the keepalive timer in runs of the server: which frames are sent when, and the page's watchdog |
| `ServerProgress.dfy` | what the server does in its turn: accepting, answering, subscribing, delivering, closing, stopping |
| `ServerTask.dfy` | the server task as the class `SseServer` with nested loops over a table changed in place, proved to follow the step relation |
| `Multicast.dfy` | the multicast sender task as a class |
| `Ansi.dfy`, `PythonClient.dfy` | the colour-code scanners of the page and of the command-line client, and that client's decoder |
| `PythonChunks.dfy` | that client on a stream cut anywhere |

A message is named by its position in the log, that is, by the order in which the logging tasks
obtained the mutex. `Server.Step` is total and deterministic in the event it is given, so "every
sequence of events" is every interleaving and every outcome of the calls into the system. The class
`SseServer` carries the sequence of events it has gone through as a ghost field; its invariant is
that its present state is what `Server.Run` makes of them, so the theorems about runs hold at each
point of the program.

## Where the code and its documentation differ

The model follows the code, and says exactly when the documented behaviour holds.

* `socket_send` is documented to block until all bytes are sent (sse_server.c:98). On a send that
  would block the code subtracts -1 from the bytes still to write and so steps one byte back.
  `Config.stall` is what such a send adds: 1 is the code, 0 is the comment. With 1, a send that
  reports success delivered exactly the data if and only if no send would have blocked
  (`CompleteSendIsExactIff`, and over whole connections `WireIsExactIff`). `EndToEnd` decodes for 0 on
  every connection, and for 1 on every connection on which no send would have blocked.
* The length that `vsnprintf` returns is not checked against the allocation (net_logging.c:29-31),
  although the maximum length is documented (Kconfig:14-19). A line longer than that is queued and
  then blocks its reader for good (`WedgedForever`). `ReadersNeverWedgeIff` gives the exact guard.
* `STOPPED_BIT` is never cleared. That stop succeeded means that the task is gone, and freeing the
  server is safe, if and only if it is started at most once per init (`StopMeansGoneIff`,
  `DeinitIsSafeIff`); `StaleStop` is the run that fails otherwise.
* Nothing keeps `run` from starting a second task beside a live one (sse_server.c:497-508), nor
  `init` from setting the structure up anew under one. Then two tasks reset and serve one table.
  The theorems about runs hold up to such an overlap. None ever happens if and only if the server is
  started at most once per init (`NoOverlapIff`). A caller that starts it again only after stop
  returned ESP_OK, and does not free it in between, is safe, and loses no client, if and only if it starts it at most twice per init:
  from the third time on, the stale bit deceives it (`CarefulCallerIff`, `ThirdStart`).
* `try_receive` reports the end of a stream like no data (sse_server.c:79-95). A peer that goes away
  before it subscribes keeps its entry, and enough of them stop all accepts, until the listener is
  given up (`SilentPeersKeepEntries`).
* The comment at the subscription promises a keepalive on the first run (sse_server.c:254). It comes
  at once only when the device has been up for more than one period (`FirstPollKeepaliveIff`).
* A line with a CR, or with a LF before its end, does not survive its frame; `FrameRoundTripIff` and
  `AloneIff` are the exact conditions, and by `AnyStream` the frames around it are not affected.
* The command-line client starts its fields afresh with every received chunk and keeps only the last
  frame of a chunk: `ChunkIsLosslessIff`, for frames cut in two `SplitFrame`, `SplitIsLosslessIff`
  and `HarmlessCutIff`, and for any chunks `AnyChunks` and `ChunkWithFrames`.
* A second init while the logger is in place saves the logger itself as the hook to put back, and a
  deinit before the first init leaves no output function at all: `HooksStayRestorableIff`,
  `AlwaysHookedIff`. The documentation asks for an init before any other call (net_logging.c:126).

## Model

| member | source | states |
|---|---|---|
| `MessageBuffers.SendKeepsConsistent` | src/net_logging.c:45-51 | offering a line keeps a buffer's books: accepted = received + queued, offered = accepted or dropped but not both, each part in log order; the line is booked once |
| `MessageBuffers.SendTakesInIff` | src/net_logging.c:45-51 | an offered line is taken in, at the end of the queue, if and only if it fits behind what is queued, headers included; else it is dropped |
| `MessageBuffers.ReceiveKeepsConsistent` | src/builtin_sse_server/sse_server.c:281-283 | a receive moves the oldest queued line to the received ones, only if it fits the destination, and keeps the books |
| `MessageBuffers.WedgedForever` | src/builtin_sse_server/sse_server.c:281-285 | with a line too large for its reader at the head, no later traffic lets the reader receive anything again |
| `MessageBuffers.DrainsIffAllFit` | src/builtin_sse_server/sse_server.c:281-285 | as many receives as there are queued lines empty the queue if and only if every queued line fits the destination |
| `MessageBuffers.SinksAgreeOnOrder` | src/net_logging.c:33-53 | two lines taken in by two buffers stand in the same order in both |
| `Registry.NetLogging.LoggingVprintf` | src/net_logging.c:21-68 | the fan-out loop appends the line to the log and leaves the buffers as offering it to every occupied slot in turn would; nothing happens if allocation fails or nothing was formatted |
| `Registry.NetLogging.RegisterBuffer` | src/net_logging.c:76-96 | the search loop puts the handle into the first empty slot and returns the documented code |
| `Registry.NetLogging.UnregisterBuffer` | src/net_logging.c:105-123 | the search loop empties the first slot that holds the handle and returns the documented code |
| `Registry.NetLogging.Init` | src/net_logging.c:130-144 | leaves an empty registry and this component's logger in place with the earlier hook saved, or reports no memory and leaves hook and slots alone |
| `Registry.DeinitRestores` | src/net_logging.c:130-164 | deinit puts back what printed before the last successful init, whatever inits failed in between, and leaves no mutex (the step of the method `NetLogging.Deinit`) |
| `Registry.HookedRestorableIff` | src/net_logging.c:130-164 | from a state in which somebody prints, the logger exactly while its mutex exists, and it can be taken out, a call leads to such a state again if and only if it is an init without the logger in place or a deinit with a hook saved |
| `Registry.HooksStayRestorableIff` | src/net_logging.c:130-164 | over any sequence of calls every state is of that kind if and only if each call comes in turn in this sense |
| `Registry.AlwaysHookedIff` | src/net_logging.c:130-164 | from a fresh device on, some output function is in place after every call if and only if each deinit has a successful init before it |
| `Registry.RegistryRefinesMultiset` | src/net_logging.c:76-123 | for every sequence of register and unregister calls, codes and content are those of a multiset of capacity six: register fails exactly when full, unregister removes exactly one occurrence or reports not found |
| `Registry.RegisterRefines` | src/net_logging.c:76-96 | one register call: the code and the content are those of the bounded multiset |
| `Registry.InsertIff` | src/net_logging.c:84-94 | a registration succeeds if and only if there is an empty slot, and the handle is then in one |
| `Registry.UnregisterRefines` | src/net_logging.c:105-123 | one unregister call likewise |
| `Registry.InsertKeepsDistinct` | src/net_logging.c:86-92 | registering a handle not yet registered keeps every handle in one slot, and adds that handle only |
| `Registry.RemoveKeepsDistinct` | src/net_logging.c:113-119 | unregistering removes that handle from the registry and no other |
| `Registry.FanOutOffersOnce` | src/net_logging.c:45-51 | after the loop each registered buffer was offered the line exactly once and every other buffer is unchanged |
| `Hub.FanStepsAreFanOut` | src/net_logging.c:33-53 | the small steps of an undisturbed logger have the effect of the fan-out loop and give the mutex back |
| `Hub.LoggedAndFannedOut` | src/net_logging.c:31-53 | a logger that finds the mutex free appends its line to the log, offers it to every slot in turn, and frees the mutex |
| `Hub.FanStepTakesInIff` | src/net_logging.c:45-51 | in every sound state the buffer in the slot being served takes the newest line in if and only if it fits, and drops it otherwise |
| `Hub.OwnerCalls` | src/net_logging.c:76-123 | what an owner's create, register, unregister, receive and delete do when they may |
| `Hub.ServeSlotSound` | src/net_logging.c:45-51 | a fan-out step never meets a deleted buffer and leaves every registered buffer offered exactly the lines logged since its registration |
| `Hub.RegisterSound` | src/net_logging.c:84-94 | registering a fresh buffer under the mutex keeps the registry sound and makes it registered exactly when the code is success |
| `Hub.UnregisterSound` | src/net_logging.c:111-121 | unregistering under the mutex empties the slot of that buffer, leaves every other slot as it was, and keeps the registry sound |
| `Hub.DeleteSound` | src/builtin_sse_server/sse_server.c:156-164 | deleting a buffer that is in no slot leaves no slot dangling |
| `Hub.StepSound` | src/net_logging.c:33-123 | every step of a logger or of a buffer owner keeps the registry sound and uses no deleted buffer |
| `Hub.RunSound` | src/net_logging.c:33-123 | the same for every run |
| `Hub.RunWithinSize` | src/net_logging.c:47-49 | in every run no buffer holds more than its size, headers included |
| `Hub.RunFits` | src/net_logging.c:29-31 | under the guard, every queued line in every reachable state fits its reader |
| `Hub.WedgingRunWedges` | src/net_logging.c:29-49 | four steps in which an unchecked length gets a line stuck |
| `Hub.ReadersNeverWedgeIff` | src/net_logging.c:29-49 | no run wedges a reader if and only if lines with their NUL fit the destination, or buffers are too small to take longer ones |
| `SocketSend.Send` | src/builtin_sse_server/sse_server.c:107-123 | the loop ends for any bounded number of sends without progress, and its result is that of the recorded results of send() |
| `SocketSend.ProgressAccounted` | src/builtin_sse_server/sse_server.c:110-116 | each turn keeps the count of accepted bytes and, while no send would have blocked, the accepted prefix |
| `SocketSend.TransmitAccounted` | src/builtin_sse_server/sse_server.c:110-121 | the same over every sequence of results |
| `SocketSend.SentIsPrefix` | src/builtin_sse_server/sse_server.c:97-123 | for any sequence of partial, blocked and failed sends the accepted bytes are a prefix, and all of the data exactly when the loop has run out, provided blocked sends make no progress or do not occur |
| `SocketSend.EverySplitDelivers` | src/builtin_sse_server/sse_server.c:107-123 | in whatever pieces the socket takes the data in, all of it gets through, and the loop asks for each piece and no more |
| `SocketSend.CompleteSendIsExactIff` | src/builtin_sse_server/sse_server.c:110-122 | in the code's own arithmetic a successful send delivered exactly the data if and only if no send would have blocked; each one costs one byte too many |
| `SocketSend.BlockedSendReadsBeforeData` | src/builtin_sse_server/sse_server.c:111-116 | the smallest failing run |
| `Keepalive.DueMeans` | src/builtin_sse_server/sse_server.c:302 | the test for every elapsed time: elapsed > period when both or neither of the tick and the sum have wrapped, true when only the sum has, false when only the tick has |
| `Keepalive.DueInTimeIff` | src/builtin_sse_server/sse_server.c:302 | every poll in the window behind the period finds the keepalive due if and only if no wrap falls inside that window |
| `Keepalive.SilenceIsBounded` | src/builtin_sse_server/sse_server.c:285-314 | a poll that transmits nothing is at most one period after the last activity |
| `Keepalive.LastPollIsInTime` | src/builtin_sse_server/sse_server.c:285-314 | every poll is at most one period behind the last transmission, or behind the subscription |
| `Keepalive.TransmissionsAreSpaced` | src/builtin_sse_server/sse_server.c:285-314 | the first transmission after the subscription, with last_activity starting at 0, and each later one start at most period + poll spacing after the subscription or the one before |
| `Keepalive.FirstPollKeepaliveIff` | src/builtin_sse_server/sse_server.c:254 | an idle client's first poll sends a keepalive if and only if the tick is past one period |
| `Keepalive.KeepaliveBeatsWatchdog` | src/builtin_sse_server/www/index.html:233-253 | transmissions so spaced complete within the 15 seconds of the page's watchdog, the first counted from the page's own subscription, if connecting, poll spacing and send time stay below 5 seconds |
| `ServerActivity.RunActivity` | src/builtin_sse_server/sse_server.c:249-314 | in every reachable state without overlapping tasks, last_activity of a client between two services is what its polls so far make of it, and the frames sent are one for each poll that transmits |
| `ServerActivity.FramesFollowPolls` | src/builtin_sse_server/sse_server.c:271-314 | on every connection the frames sent whole were started at the ticks of the polls that had a message or found the keepalive due, in that order, and last_activity is the tick of the last one |
| `ServerActivity.ClientBeatsWatchdog` | src/builtin_sse_server/www/index.html:233-253 | in every such run, a client that is served at regular intervals hears from the server in time for the page's watchdog, first and from event to event, and up to the last poll the watchdog has not fired, even when nothing has been sent since |
| `EventStream.FramesAreWhole` | src/builtin_sse_server/sse_server.c:287-306 | neither snprintf cuts a frame short, and a log frame takes at most the maximum length + 24 bytes |
| `EventStream.ChunkingIsIrrelevant` | src/builtin_sse_server/www/index.html:233-240 | however a stream is cut, the parser fed with the pieces ends as the line structure of the whole stream prescribes, line ends CR, LF and CR LF included |
| `EventStream.FrameRoundTrip` | src/builtin_sse_server/sse_server.c:288 | a single-line text comes back as one event without its trailing LF, and the extra blank line dispatches nothing |
| `EventStream.FrameRoundTripIff` | src/builtin_sse_server/sse_server.c:288 | a text survives its frame if and only if it has no CR and no LF but at its end |
| `EventStream.BrokenTextIsCut` | src/builtin_sse_server/sse_server.c:288 | any other text loses characters |
| `EventStream.FrameResynchronises` | src/builtin_sse_server/sse_server.c:288 | whatever the text, after a frame the parser is between events |
| `EventStream.FeedStream` | src/builtin_sse_server/sse_server.c:285-314 | a stream of whole frames parses to exactly their events |
| `EventStream.StreamRoundTrip` | src/builtin_sse_server/sse_server.c:285-314 | the same for any chunking |
| `EventStream.StreamPrefix` | src/builtin_sse_server/sse_server.c:295-301 | with part of a further frame behind them: those events, and at most that frame's |
| `EventStream.AnyStream` | src/builtin_sse_server/sse_server.c:285-314 | with any texts, line breaks and field names included, the page's listener is given in order what each frame yields by itself |
| `EventStream.AnyStreamPrefix` | src/builtin_sse_server/sse_server.c:295-301 | with part of a further frame behind them: that, and the beginning of what the further frame yields |
| `EventStream.AloneIff` | src/builtin_sse_server/www/index.html:198-211 | a log-line frame gives the listener its text without the trailing LF, and nothing else, if and only if the text is a single line |
| `ServerInvariant.BootInv` | src/net_logging.c:16-18 | the invariant holds before the first init |
| `ServerInvariant.OtherStepInv` | src/net_logging.c:33-123 | no step of a logger or of another buffer owner breaks it |
| `ServerInvariant.ApiStepInv` | src/builtin_sse_server/sse_server.c:495-581 | nor does init, run, stop, the wait, deinit or the network handler, unless a start or an init overlaps a live task |
| `ServerInvariant.ResetInv` | src/builtin_sse_server/sse_server.c:340-344 | the table reset overwrites no socket and no buffer |
| `ServerInvariant.AcceptInv` | src/builtin_sse_server/sse_server.c:415-451 | a new connection goes into a free entry and shares no socket with another |
| `ServerInvariant.PollInv` | src/builtin_sse_server/sse_server.c:271-315 | a poll keeps the books: what it took out of the buffer is the frame under way (what it takes out is PollTakesTheLine) |
| `ServerInvariant.CreateInv` | src/builtin_sse_server/sse_server.c:238-248 | a created buffer is owned by its entry alone; a failed creation leads to cleanup |
| `ServerInvariant.RegisterInv` | src/builtin_sse_server/sse_server.c:249-254 | a created buffer whose registration failed is on its way to cleanup |
| `ServerInvariant.SendingInv` | src/builtin_sse_server/sse_server.c:294-313 | the bytes on the wire are the whole frames and the part of the one under way |
| `ServerInvariant.CloseInv` | src/builtin_sse_server/sse_server.c:151-155 | cleanup, first part: the socket leaves the open ones and is counted closed, so that accepted = closed + open is kept |
| `ServerInvariant.UnregisterInv` | src/builtin_sse_server/sse_server.c:156-157 | second part: the buffer leaves the registry before it is deleted |
| `ServerInvariant.DeleteInv` | src/builtin_sse_server/sse_server.c:158-164 | third part: the buffer is deleted once and the count of held buffers falls by one |
| `ServerInvariant.TeardownInv` | src/builtin_sse_server/sse_server.c:483-486 | the teardown loop leaves no entry open |
| `ServerInvariant.RunInv` | src/builtin_sse_server/sse_server.c:328-493 | every state reached without overlapping tasks satisfies the invariant |
| `ServerInvariant.RunStopInv` | src/builtin_sse_server/sse_server.c:488-535 | with one start per init, the task is gone whenever the stopped bit is set, and the structure is never used after it was freed |
| `ServerTheorems.WireDecodes` | src/builtin_sse_server/sse_server.c:285-314 | what the page's listener is given for the bytes a socket took in: what the whole frames yield, each by itself, and at most what the one under way does |
| `ServerTheorems.EndToEnd` | src/builtin_sse_server/sse_server.c:271-315 | of the lines logged while a client's buffer is registered, each is exactly one of received, queued or dropped, in every run; the page is given in log order what the frames of the received lines yield, whatever their texts, except perhaps for the frame under way |
| `ServerTheorems.DroppedDidNotFit` | src/net_logging.c:45-51 | in every run, a line a buffer dropped did not fit behind what was queued when it was offered |
| `ServerTheorems.WireIsExactIff` | src/builtin_sse_server/sse_server.c:97-123 | on every connection of every run, the socket took in exactly the frames sent whole if and only if no send would have blocked, or a blocked send adds nothing; each one costs the stall in bytes too many |
| `ServerTheorems.SinksAgree` | src/net_logging.c:33-53 | in every reachable state any two buffers agree on the order of lines both took in |
| `ServerTheorems.TableMatchesRegistry` | src/builtin_sse_server/sse_server.c:415-465 | between two clients: no socket means no buffer, buffers are live, registered in one slot and owned by one entry, and streaming clients plus other registrants never exceed six |
| `ServerTheorems.NothingLost` | src/builtin_sse_server/sse_server.c:341-344 | over any run without overlapping tasks client buffers created = deleted + held and sockets accepted = closed + open, no reset loses anything, and no deleted buffer is used |
| `ServerTheorems.StopIsComplete` | src/builtin_sse_server/sse_server.c:526-535 | when stop returned ESP_OK the task is gone, no socket is open, and only the application's buffers are registered |
| `ServerTheorems.StopMeansGoneIff` | src/builtin_sse_server/sse_server.c:526-535 | that stop returned ESP_OK means in every interleaving that the task is gone, if and only if the server is started at most once per init |
| `ServerTheorems.StaleStopDangles` | src/builtin_sse_server/sse_server.c:501-502 | a second start without init makes a run in which the freed structure is used |
| `ServerTheorems.DeinitIsSafeIff` | src/builtin_sse_server/sse_server.c:565-581 | deinit after a successful stop is safe in every interleaving if and only if the server is started at most once per init |
| `ServerTheorems.NoOverlapIff` | src/builtin_sse_server/sse_server.c:495-510 | no start and no init ever overlaps a live task, in any interleaving, if and only if the server is started at most once per init |
| `ServerTheorems.CarefulCallerIff` | src/builtin_sse_server/sse_server.c:495-535 | for callers that start again only after stop returned ESP_OK and do not free the server in between, no start overlaps a live task, and no reset loses a client, if and only if the server is started at most twice per init |
| `ServerTheorems.ThirdStartLoses` | src/builtin_sse_server/sse_server.c:341-344 | the run of such a caller in which a third start resets the table over a connected client |
| `ServerTheorems.NetworkChangeIsHandled` | src/builtin_sse_server/sse_server.c:408-476 | after a signal the task accepts on the same listener at most once more, and only if it had not yet done so in this turn of the loop; a later listener is set up only after all clients of this one were closed and their buffers released |
| `ServerTheorems.SignalIsHandled` | src/builtin_sse_server/sse_server.c:322-326 | the same from the call of the event handler on: a network event while a listener is in use has that effect |
| `ServerTheorems.BitMeansSignal` | src/builtin_sse_server/sse_server.c:408-476 | the bit is never set but by a network event since which it has been pending, so no listener is given up for nothing |
| `ServerTheorems.SilentPeersKeepEntries` | src/builtin_sse_server/sse_server.c:79-95 | entries whose peers send nothing or closed their end before subscribing keep their sockets through any number of polls while the listener is in use, and if these are all entries nothing more is accepted |
| `ServerTheorems.ServerReadersKeepUp` | src/builtin_sse_server/sse_server.c:281-302 | if lines fit, a client's receive comes back empty only when its queue is empty |
| `ServerProgress.AcceptTakesFirstFree` | src/builtin_sse_server/sse_server.c:415-451 | a connection goes into the first free entry and nowhere else, without a free entry accept is not called, and its failures lead to the teardown |
| `ServerProgress.RequestIsAnswered` | src/builtin_sse_server/sse_server.c:172-270 | where each outcome of a request leads: on to the next client, to cleanup, or to a subscription |
| `ServerProgress.CleanupReleases` | src/builtin_sse_server/sse_server.c:149-165 | cleanup takes the socket and the buffer from the entry, the registry and the live buffers, in two or three steps, and leaves the other entries alone |
| `ServerProgress.FailedPeerIsClosed` | src/builtin_sse_server/sse_server.c:181-184 | after a receive error, or an answer that could not be sent, the entry is free again |
| `ServerProgress.SubscriptionRegisters` | src/builtin_sse_server/sse_server.c:225-254 | a subscription creates an empty buffer of the configured size and registers it from the present end of the log on, if there is an empty slot; else the entry goes to cleanup with it |
| `ServerProgress.NoMemoryNoSubscription` | src/builtin_sse_server/sse_server.c:243-248 | without memory for a buffer the entry goes to cleanup |
| `ServerProgress.PollTakesTheLine` | src/builtin_sse_server/sse_server.c:281-306 | in every reachable state a poll takes the oldest waiting line that fits out of the buffer and begins its frame; otherwise the buffer stays, and a keepalive is begun if due |
| `ServerProgress.SendsDeliver` | src/builtin_sse_server/sse_server.c:294-313 | when the sends end the loop the frame counts as sent, or the client goes to cleanup if one failed |
| `ServerProgress.WaitingLineIsDelivered` | src/builtin_sse_server/sse_server.c:271-301 | a line waiting for a client is on the wire as one whole frame after the client's turn, in whatever pieces the socket takes it in |
| `ServerProgress.StopTakesEffect` | src/builtin_sse_server/sse_server.c:408-493 | a task told to stop, left alone between two turns, closes every client, gives up every buffer and sets the stopped bit |
| `ServerProgress.ListenerIsSetUp` | src/builtin_sse_server/sse_server.c:346-408 | a listener that could be made is in use with the event bit cleared; otherwise the outer loop goes round |
| `ServerTask.SseServer.CleanupClient` | src/builtin_sse_server/sse_server.c:149-165 | closes, unregisters and deletes what the entry holds, leaves the other entries alone, and follows the step relation |
| `ServerTask.SseServer.CloseSocket` | src/builtin_sse_server/sse_server.c:151-155 | the entry gives up its socket and nothing else of the table changes |
| `ServerTask.SseServer.UnregisterClient` | src/builtin_sse_server/sse_server.c:156-157 | the buffer is unregistered under the mutex before anything is deleted |
| `ServerTask.SseServer.DeleteClient` | src/builtin_sse_server/sse_server.c:158-164 | the entry gives up its buffer and nothing else of the table changes |
| `ServerTask.SseServer.SendFrame` | src/builtin_sse_server/sse_server.c:294-301 | the send loop for a frame, with its bookkeeping, follows the step relation |
| `ServerTask.SseServer.SendOnce` | src/builtin_sse_server/sse_server.c:110-116 | one send() advances the frame under way by what it took in, ends it, or made no progress |
| `ServerTask.SseServer.FinishFrame` | src/builtin_sse_server/sse_server.c:295-301 | a frame sent whole sets the activity time and lets the client go on; a failed one leads to cleanup |
| `ServerTask.SseServer.Subscribe` | src/builtin_sse_server/sse_server.c:225-255 | on success the client is served from the new registered buffer with activity time 0; it fails only without memory or without an empty slot |
| `ServerTask.SseServer.CreateClientBuffer` | src/builtin_sse_server/sse_server.c:238-248 | a buffer that was created goes on to registration; a failed creation leads to cleanup |
| `ServerTask.SseServer.RegisterClient` | src/builtin_sse_server/sse_server.c:249-254 | a failed registration leads to cleanup with the buffer still in the entry |
| `ServerTask.SseServer.AnswerRequest` | src/builtin_sse_server/sse_server.c:172-270 | for each outcome of recv() and request what serve_client returns and leaves in the entry |
| `ServerTask.SseServer.TakeNext` | src/builtin_sse_server/sse_server.c:281-306 | the next message, or the keepalive that is due, becomes the frame to send |
| `ServerTask.SseServer.StreamNext` | src/builtin_sse_server/sse_server.c:271-315 | the oldest line that fits is received and, on success, is the last frame sent; without one, a keepalive exactly when due |
| `ServerTask.SseServer.AcceptOne` | src/builtin_sse_server/sse_server.c:415-451 | the search finds the first free entry, and what accept returned goes into it, or nothing changes |
| `ServerTask.SseServer.ServeAll` | src/builtin_sse_server/sse_server.c:453-465 | one pass over the table, cleaning up the clients that failed |
| `ServerTask.SseServer.ResetClients` | src/builtin_sse_server/sse_server.c:338-344 | marks every entry available without losing anything |
| `ServerTask.SseServer.CheckNetwork` | src/builtin_sse_server/sse_server.c:467-472 | the bit it finds decides between teardown and the next turn and is cleared; a signal given before it is never missed |
| `ServerTask.SseServer.OneTurn` | src/builtin_sse_server/sse_server.c:410-476 | one turn accepts once if there is a free entry, serves all, and goes on unless the listener failed or the network changed |
| `ServerTask.SseServer.AcceptAndServe` | src/builtin_sse_server/sse_server.c:410-476 | the inner loop leaves towards the teardown on every path, and not before a first turn unless it was told to stop |
| `ServerTask.SseServer.SetUpListener` | src/builtin_sse_server/sse_server.c:346-408 | a listener that was set up goes on to accept; otherwise the outer loop goes round |
| `ServerTask.SseServer.ClearNetBit` | src/builtin_sse_server/sse_server.c:408 | the inner loop starts with the event bit cleared: an earlier signal is absorbed by this listener |
| `ServerTask.SseServer.TearDown` | src/builtin_sse_server/sse_server.c:478-486 | afterwards no socket is open and no buffer held |
| `ServerTask.SseServer.OneGeneration` | src/builtin_sse_server/sse_server.c:328-486 | one turn of the outer loop resets the table once and uses a new listener if one could be made |
| `ServerTask.SseServer.ServerTask` | src/builtin_sse_server/sse_server.c:328-493 | the whole task, in any interleaving, follows the step relation and ends with the stopped bit set, nothing open, nothing held, and no buffer but the application's |
| `ServerTask.SseServer.SignalStopped` | src/builtin_sse_server/sse_server.c:488-493 | the stopped bit is set only when nothing is open, held or registered any more |
| `ServerTask.SseServer.Init` | src/builtin_sse_server/sse_server.c:537-563 | init with both of its failures: a cleared structure, or an error and nothing changed |
| `ServerTask.SseServer.Start` | src/builtin_sse_server/sse_server.c:495-510 | run with its failure path, also while an earlier task is alive, which is then on record |
| `Multicast.ChosenIsSplit` | src/builtin_client/multicast_log_sender.c:184-193 | sent and lost messages together are exactly the received ones |
| `Multicast.ChosenKeepsOrder` | src/builtin_client/multicast_log_sender.c:184-193 | each part keeps the log order |
| `Multicast.MulticastSender.SetUp` | src/builtin_client/multicast_log_sender.c:137-148 | creates and registers the buffer; it fails only without memory or without an empty slot, and what was created is then left for the cleanup |
| `Multicast.MulticastSender.SendNext` | src/builtin_client/multicast_log_sender.c:173-201 | one receive makes at most one datagram, of exactly the message received, and a failed sendto loses exactly that message; earlier datagrams and losses stay |
| `Multicast.MulticastSender.SendUntilFailure` | src/builtin_client/multicast_log_sender.c:173-201 | one socket ends only by a failed sendto or a stop; the line waiting at its beginning is received first, and sent or lost; at most one message is lost |
| `Multicast.MulticastSender.ServeSocket` | src/builtin_client/multicast_log_sender.c:150-209 | a socket that is ready while the task runs serves the line waiting then |
| `Multicast.MulticastSender.CleanUp` | src/builtin_client/multicast_log_sender.c:211-226 | the buffer leaves the registry before it is deleted, on every path |
| `Multicast.MulticastSender.Task` | src/builtin_client/multicast_log_sender.c:124-229 | over any socket failures and re-creations, accepted = received + queued, and the received messages are an order-preserving split into datagrams and losses with one loss per failed sendto; each socket ready while the task ran has served the line waiting then |
| `Ansi.GreedyScanIsTheMatch` | examples/sse_server/sse-client.py:22-24 | the greedy scan without backtracking finds the match of the expression whenever there is one, and it is unique |
| `Ansi.RemovesLeftmost` | examples/sse_server/sse-client.py:22-24 | the replacement takes out the leftmost match of the expression and goes on behind it |
| `Ansi.KeepsWithoutMatch` | examples/sse_server/sse-client.py:22-24 | a line without a match stays as it is |
| `Ansi.PythonIsIdempotentIff` | examples/sse_server/sse-client.py:22-24 | removing the sequences once is enough if and only if the characters kept in one pass over the line do not join to a new sequence |
| `Ansi.JoinsNeedsStray` | examples/sse_server/sse-client.py:22-24 | in particular it is enough on every line without an ESC or C1 at which no sequence starts |
| `Ansi.ControlLeftIff` | examples/sse_server/sse-client.py:22-24 | an ESC or C1 is left in the line if and only if the scan met one at which no sequence starts |
| `Ansi.PythonIsNotIdempotent` | examples/sse_server/sse-client.py:22-24 | a line on which removing a sequence forms a new one |
| `Ansi.PageLeavesNoSequence` | src/builtin_sse_server/www/index.html:201 | after the replacement no ESC has a later m |
| `Ansi.PageIsIdempotent` | src/builtin_sse_server/www/index.html:201 | replacing twice is replacing once |
| `Ansi.BothReturnTheText` | src/builtin_sse_server/www/index.html:198-211 | on text with colour sequences both scanners return the text |
| `Ansi.StripConcat` | examples/sse_server/sse-client.py:22-24 | behind a line without stray control characters whatever follows is scanned by itself |
| `Ansi.ColouredIsNotStray` | examples/sse_server/sse-client.py:22-24 | coloured log lines have no stray control characters |
| `PythonClient.DecodeChunk` | examples/sse_server/sse-client.py:57-79 | the loop over the lines of a chunk computes the fold over them and what it reports |
| `PythonClient.FrameOverwrites` | examples/sse_server/sse-client.py:60-71 | one frame replaces both fields by its type and stripped text |
| `PythonClient.LastFrameWins` | examples/sse_server/sse-client.py:58-71 | a chunk of whole frames ends with the type and stripped text of the last one |
| `PythonClient.ChunkIsLosslessIff` | examples/sse_server/sse-client.py:54-79 | such a chunk is logged without loss if and only if no frame but the last carries a line worth logging |
| `PythonChunks.SplitFrame` | examples/sse_server/sse-client.py:51-79 | a frame cut anywhere: nothing is logged when the cut lies before its text, the beginning of the text when it lies inside, the whole line when it lies behind |
| `PythonChunks.SplitIsLosslessIff` | examples/sse_server/sse-client.py:51-79 | for a text without stray control characters, coloured or not, the cut loses nothing if and only if the text is blank, or the cut lies behind its first visible character, not inside a sequence, and only blanks and sequences lie behind it |
| `PythonChunks.HarmlessCutIff` | examples/sse_server/sse-client.py:51-79 | the cuts that are harmless for every text of a length are those behind the text |
| `PythonChunks.AnyChunks` | examples/sse_server/sse-client.py:51-79 | a stream of frames in any chunks is logged as the parts of its frames in each chunk say, read frame by frame |
| `PythonChunks.FrameBegins` | examples/sse_server/sse-client.py:58-71 | what the first bytes of a frame say: as much of its type as is there, and as much of its text |
| `PythonChunks.ChunkWithFrames` | examples/sse_server/sse-client.py:51-79 | a chunk of the end of a frame, whole frames and the beginning of another logs the last whole line only if at most the word event is there of the next; else nothing until that type is complete, then the last text again, then the next text as far as it is there |
| `PythonClient.FrameFitsOneReceive` | examples/sse_server/sse-client.py:54 | at the default length a frame fits one recv |

## Left out

- EndToEnd: states delivery into the socket and through the parser; TCP itself, the HTTP response headers and UTF-8 decoding (with its byte order mark) are not modelled, and characters stand for bytes.
- SendFrame: ends the runs in which a peer accepts nothing forever with a failed send, and AcceptAndServe and Task end with a stop request after any number of rounds; liveness under stalled peers is not claimed.
- RunInv: speaks of runs without overlapping tasks, as EndToEnd, SinksAgree, TableMatchesRegistry, NothingLost and NetworkChangeIsHandled do; after an overlap only the steps of the task started last are modelled.
- ServerTask: follows runs in which nobody frees the server under the task; DeinitIsSafeIff says when nobody can.
- RunStopInv: holds for one start per init, the exact condition by StopMeansGoneIff and DeinitIsSafeIff.
- ReadersNeverWedgeIff: counts the bytes of an overlong line but says nothing about what lies behind the allocation.
- TransmissionsAreSpaced: assumes that no tick comes within one period of the wrap; DueMeans and DueInTimeIff say what happens there.
- SplitFrame: takes characters for bytes; a cut inside a multi-byte character makes the client's decode raise (sse-client.py:57).
- SetUp: stands for the create and register calls of any owner that, like both senders, registers a buffer once.
- The init, run, stop and deinit calls of the multicast sender: they have the shape of the server's, and no result here speaks of them.
- Socket creation, bind, setsockopt, fcntl, getaddrinfo and address formatting: their outcomes are arbitrary; nothing is claimed about listener sockets on error paths.
- The timeout of the wait for the stopped bit: only the successful return matters to the caller's next step.
- The ring-buffer build, stdout output, the routing of HTTP requests and the compressed page: no hard property.
- `http_client.c`, `tcp_client.c`, `udp_client.c` and the MQTT example: not part of the build, and plain receive-and-send loops.
- Logging concurrently with `netlogging_deinit`: the code makes no promise.
- The page's buttons, pause and log-level colours.
