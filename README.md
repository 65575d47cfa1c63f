# interview-backend, modelled in Dafny

This project is a Dafny model of the core of an interview back end. The back end is a Spring Boot service that relays a candidate's interview session to the Gemini Live streaming API and manages candidates, their interview rounds and the application's users.

The model covers these parts:

- **The Gemini relay** (`GeminiWebSocketClient`):
  - a connection object holding a registry of session handlers, an `isConnected` flag and an abstract socket;
  - the socket has a ready state, connect and close outcomes passed in as parameters, and a ghost log of opened epochs and sent frames;
  - outbound frames (`setup`, `clientContent`, `realtimeInput`) are built as JSON values;
  - inbound frames are decoded into a trace of handler events, which is broadcast to every registered handler.
- **The connection pool** (`GeminiConnectionPool`): a session-id → client table.
- **Interview orchestration:**
  - `InterviewService` keeps the active-session table, routes messages by type and maps handler events to outgoing STOMP messages, collected in an outbox;
  - `MediaController.streamMedia` forwards one call per chunk.
- **Candidate management:**
  - `CandidateService` stores candidates in a map repository and implements the multi-criteria search filter, the sort, the page slice, round management and the round → candidate status rule;
  - also modelled: the search response's page arithmetic, the controller's statistics, search defaults and status validation, and the DTO conversions.
- **Users and security:**
  - the user store (`UserService`, over a map repository);
  - `UserPrincipal`, `UserDto` and `LoginResponse`;
  - the Bearer-token check of the STOMP CONNECT interceptor.

Conventions:

- A Java reference that may be null is an `Option`.
- A thrown exception is the `Failure` of a `Result`, carrying the exception's message.
- Timestamps are integers.
- The 32-bit arithmetic of page offsets is written out (module `JavaInt`).
- Objects whose fields the source updates in place are classes:
  - `GeminiClient.Client`, `GeminiPool.Pool`, `Interview.Service`, `Media.Controller`, `CandidateStore.CandidateService`, `CandidateApi.CandidateController`, `UserStore.UserService` and `WsAuth.StompMessage`;
  - each method is specified by a pure function of the state before the call.

The clock, the UUID source, the repository's id allocator, the password encoder and the token provider are parameters:

- the clock is `now`;
- the UUID source and the id allocator are `newId`;
- the password encoder is `encode`;
- the token provider is `validate` and `userIdOf`.

## Model

| member | source | states |
|---|---|---|
| GeminiWire.BuildRealtimeInput | src/main/java/com/interview/app/websocket/GeminiWebSocketClient.java:229-250 | The realtimeInput frame built by the chunk loop decodes back to exactly the input chunks: same count, order, mimeType and data |
| GeminiWire.DecodeChunkList | src/main/java/com/interview/app/websocket/GeminiWebSocketClient.java:236-245 | Decoding the chunk list produced by the loop gives back the original chunks |
| GeminiWire.RealtimeRoundTrip | src/main/java/com/interview/app/websocket/GeminiWebSocketClient.java:229-250 | A realtimeInput frame carries its chunks losslessly and is never mistaken for a setup frame |
| GeminiWire.TextRoundTrip | src/main/java/com/interview/app/websocket/GeminiWebSocketClient.java:256-283 | A clientContent frame carries one "user" turn whose single text part is the given text, and it is not a setup frame |
| GeminiWire.SetupFrameContents | src/main/java/com/interview/app/websocket/GeminiWebSocketClient.java:285-342 | The setup frame uses the bound voice, or "Aoede" when none is bound. It uses the bound system instruction, or the fixed interviewer text when none is bound. Its model is "models/gemini-2.0-flash-exp", its response modality is "audio" and its only tool is googleSearch |
| GeminiDispatch.Fanout | src/main/java/com/interview/app/websocket/GeminiWebSocketClient.java:344-348 | One event reaches each registered handler once, in registry order |
| GeminiDispatch.PartsEventsAreContent | src/main/java/com/interview/app/websocket/GeminiWebSocketClient.java:368-393 | The parts loop only ever delivers audio and text responses |
| GeminiDispatch.PartsEventsAppend | src/main/java/com/interview/app/websocket/GeminiWebSocketClient.java:368-393 | Parts are delivered in list order: the events of a concatenation are the events of each half, in sequence |
| GeminiDispatch.AbortDropsRest | src/main/java/com/interview/app/websocket/GeminiWebSocketClient.java:368-393 | A part that throws (a null or ill-typed part) ends delivery: nothing after it is delivered |
| GeminiDispatch.PartOutcomeRules | src/main/java/com/interview/app/websocket/GeminiWebSocketClient.java:370-391 | An inlineData part yields audio only when its mimeType starts with "audio/pcm". A text part yields a text response. A part holding both keys takes only the inlineData branch. A null part throws |
| GeminiDispatch.FrameEventsRules | src/main/java/com/interview/app/websocket/GeminiWebSocketClient.java:71-115 | setupComplete is checked first, then serverContent. Unknown keys and undecodable payloads give no events. interrupted gives only onInterrupted. turnComplete gives onTurnComplete and the model turn's parts still follow |
| GeminiDispatch.FrameEventsShape | src/main/java/com/interview/app/websocket/GeminiWebSocketClient.java:350-399 | Inbound frames never produce onDisconnect. A setupComplete frame produces that event alone. A toolCall frame produces nothing |
| GeminiDispatch.BroadcastSnoc | src/main/java/com/interview/app/websocket/GeminiWebSocketClient.java:344-393 | Broadcasting one more event appends exactly one fan-out of it to the trace |
| GeminiSession.SetupSeenMeans | src/main/java/com/interview/app/websocket/GeminiWebSocketClient.java:285-342 | The recursive "setup already sent in this epoch" test means that a setup frame was sent since the socket last opened |
| GeminiSession.SetupFirstMeans | src/main/java/com/interview/app/websocket/GeminiWebSocketClient.java:159-283 | Under the ordering rule, every non-setup frame on the wire is preceded by a setup frame of the same socket epoch |
| GeminiSession.UnregisterMembers | src/main/java/com/interview/app/websocket/GeminiWebSocketClient.java:209-211 | Removing a session's handler removes exactly that id and keeps the registry duplicate-free |
| GeminiSession.RegisterMembers | src/main/java/com/interview/app/websocket/GeminiWebSocketClient.java:159-160 | Registering adds exactly the session id, keeps the registry duplicate-free and keeps the earlier order |
| GeminiSession.EventsForAppend | src/main/java/com/interview/app/websocket/GeminiWebSocketClient.java:344-393 | What a handler receives from two traces in sequence is what it receives from each |
| GeminiSession.EventsForFanout | src/main/java/com/interview/app/websocket/GeminiWebSocketClient.java:344-348 | A registered handler receives a fanned-out event exactly once; an unregistered one receives nothing |
| GeminiSession.EventsForBroadcast | src/main/java/com/interview/app/websocket/GeminiWebSocketClient.java:350-393 | Every registered handler receives the whole event sequence in order, and others receive nothing |
| GeminiSession.SharedClientBroadcast | src/main/java/com/interview/app/websocket/GeminiWebSocketClient.java:71-115 | Two sessions sharing one client both receive every event of every inbound frame, in the same order |
| GeminiSession.OnCloseNotifiesEachOnce | src/main/java/com/interview/app/websocket/GeminiWebSocketClient.java:117-151 | onClose clears isConnected and gives each registered handler exactly one onDisconnect |
| GeminiSession.TransmitKeepsInv | src/main/java/com/interview/app/websocket/GeminiWebSocketClient.java:225-283 | Sending a frame on an open socket that has had its setup keeps the client invariant (distinct handlers, setup first) |
| GeminiSession.TransmitSetupKeepsInv | src/main/java/com/interview/app/websocket/GeminiWebSocketClient.java:285-342 | Sending the setup frame makes an open socket's epoch satisfy the invariant and leaves the ready state alone |
| GeminiSession.CloseKeepsInv | src/main/java/com/interview/app/websocket/GeminiWebSocketClient.java:160-171 | Closing, whatever the outcome, keeps the invariant and touches neither the wire log nor the registry |
| GeminiSession.ClosedOnceKeepsInv | src/main/java/com/interview/app/websocket/GeminiConnectionPool.java:77-88 | Any state reached by one close request keeps the invariant and counts one more close |
| GeminiSession.SetupSessionKeepsInv | src/main/java/com/interview/app/websocket/GeminiWebSocketClient.java:159-207 | setupSession keeps the invariant under every connect and close outcome |
| GeminiSession.RemoveSessionKeepsInv | src/main/java/com/interview/app/websocket/GeminiWebSocketClient.java:209-223 | removeSession keeps the invariant under every close outcome |
| GeminiSession.OtherTransitionsKeepInv | src/main/java/com/interview/app/websocket/GeminiWebSocketClient.java:71-157 | onClose, onError, onMessage, sendRealtimeInput and sendTextMessage all keep the invariant |
| GeminiSession.SetupSessionRegisters | src/main/java/com/interview/app/websocket/GeminiWebSocketClient.java:159-160 | setupSession always registers the handler, whatever happens to the connection |
| GeminiSession.SetupSentOnceWhenConnected | src/main/java/com/interview/app/websocket/GeminiWebSocketClient.java:174-206 | At most one setup frame is sent per setupSession call, and only when the client ends up connected |
| GeminiSession.FailedConnectNotifiesHandler | src/main/java/com/interview/app/websocket/GeminiWebSocketClient.java:174-186 | A failed first connect runs the library's onClose, so every registered handler hears onDisconnect once; the new handler then hears it a second time from the failure branch. The socket ends closed and unconnected, and no setup frame is sent |
| GeminiSession.FailedReconnectNotifiesAll | src/main/java/com/interview/app/websocket/GeminiWebSocketClient.java:187-196 | A failed reconnect of a closed socket runs onClose, so every handler, the new one included, hears onDisconnect exactly once; nothing is sent |
| GeminiSession.InterruptedConnectIsSilent | src/main/java/com/interview/app/websocket/GeminiWebSocketClient.java:200-205 | An interrupted connect of a fresh or closed client returns without throwing, notifying anyone or sending a frame; only the handler is registered |
| GeminiSession.ReusedClientThrows | src/main/java/com/interview/app/websocket/GeminiWebSocketClient.java:178-185 | connectBlocking on a client that already started a connection (a closing socket, or one whose earlier connect was interrupted) throws IllegalStateException, which setupSession does not catch; only the handler is registered |
| GeminiSession.OnlyStartedClientThrows | src/main/java/com/interview/app/websocket/GeminiWebSocketClient.java:159-207 | A fresh, closed, or connected and open client never makes setupSession throw, and a call that throws has sent nothing and notified nobody |
| GeminiSession.StaleSocketInterruptedClose | src/main/java/com/interview/app/websocket/GeminiWebSocketClient.java:160-185 | If closing an open but unflagged socket is interrupted, the socket is left closing, the connect that follows throws, and nothing is sent or notified |
| GeminiSession.RemoveSessionEffect | src/main/java/com/interview/app/websocket/GeminiWebSocketClient.java:209-223 | Only that session's handler is removed. The socket is closed and isConnected cleared only when the registry becomes empty and the socket is open. Nobody is notified |
| GeminiSession.RealtimeSendsChunks | src/main/java/com/interview/app/websocket/GeminiWebSocketClient.java:225-254 | While disconnected nothing happens. Otherwise exactly one realtimeInput frame carrying the chunks goes out and no handler is notified |
| GeminiSession.TextSendsTurn | src/main/java/com/interview/app/websocket/GeminiWebSocketClient.java:256-283 | With no connected check, one clientContent frame goes out when the socket is open; otherwise nothing changes |
| GeminiClient.Client.constructor | src/main/java/com/interview/app/websocket/GeminiWebSocketClient.java:47-58 | A new client is unconnected with no handlers. It binds its URI, session id, voice and instruction, and sends the Origin and User-Agent headers |
| GeminiClient.Client.NotifyAll | src/main/java/com/interview/app/websocket/GeminiWebSocketClient.java:344-348 | The loop over handlers appends exactly one notification per registered handler, in order |
| GeminiClient.Client.OnClose | src/main/java/com/interview/app/websocket/GeminiWebSocketClient.java:117-151 | The new state is the onClose transition, and the invariant holds |
| GeminiClient.Client.OnError | src/main/java/com/interview/app/websocket/GeminiWebSocketClient.java:153-157 | isConnected is cleared and nobody is notified |
| GeminiClient.Client.OnMessage | src/main/java/com/interview/app/websocket/GeminiWebSocketClient.java:71-115 | Every event of the decoded frame is broadcast to every handler, in order |
| GeminiClient.Client.CloseBlocking | src/main/java/com/interview/app/websocket/GeminiWebSocketClient.java:160-171 | Closing follows the outcome; interruption is reported exactly when a live socket's close is interrupted |
| GeminiClient.Client.Connect | src/main/java/com/interview/app/websocket/GeminiWebSocketClient.java:174-196 | A completed connect runs onOpen: a new epoch with isConnected set. A failed one runs onError and then onClose: the socket is closed and every registered handler hears onDisconnect |
| GeminiClient.Client.SendSetupMessage | src/main/java/com/interview/app/websocket/GeminiWebSocketClient.java:285-342 | The setup frame goes onto the wire exactly when the socket is open |
| GeminiClient.Client.SetupSession | src/main/java/com/interview/app/websocket/GeminiWebSocketClient.java:159-207 | The new state and whether the call throws are the setupSession decision procedure's result, and the invariant holds |
| GeminiClient.Client.ClearStaleSocket | src/main/java/com/interview/app/websocket/GeminiWebSocketClient.java:160-171 | An open socket that is not flagged connected is closed first; an interrupted close is reported |
| GeminiClient.Client.ConnectAndHandshake | src/main/java/com/interview/app/websocket/GeminiWebSocketClient.java:174-206 | A closed socket is reconnected and its result ignored; any other socket is connected only if it never started one, else the call throws; a failed first connect also notifies the new handler; setup is sent only if connected |
| GeminiClient.Client.RemoveSession | src/main/java/com/interview/app/websocket/GeminiWebSocketClient.java:209-223 | The new state is the removeSession transition, and the invariant holds |
| GeminiClient.Client.SendRealtimeInput | src/main/java/com/interview/app/websocket/GeminiWebSocketClient.java:225-254 | The new state is the guarded realtimeInput send, and the invariant holds |
| GeminiClient.Client.SendTextMessage | src/main/java/com/interview/app/websocket/GeminiWebSocketClient.java:256-283 | The new state is the unguarded clientContent send, and the invariant holds |
| GeminiPool.Pool.constructor | src/main/java/com/interview/app/websocket/GeminiConnectionPool.java:21-33 | A new pool is empty and keeps the configured URL, API key, voice and instruction |
| GeminiPool.Pool.DistinctClients | src/main/java/com/interview/app/websocket/GeminiConnectionPool.java:38-40 | Two sessions never share a pooled client |
| GeminiPool.Pool.GetConnection | src/main/java/com/interview/app/websocket/GeminiConnectionPool.java:38-40 | Lookup is idempotent: a present id returns its stored client and changes nothing. An absent id adds exactly one fresh client bound to that session, the configured voice and instruction, and the URI url + "?key=" + apiKey. If construction fails, it raises and stores nothing |
| GeminiPool.Pool.RemoveConnection | src/main/java/com/interview/app/websocket/GeminiConnectionPool.java:45-56 | The entry is gone, the removed client is closed once, an absent id is a no-op, and other entries are unchanged |
| GeminiPool.Pool.ActiveConnectionCount | src/main/java/com/interview/app/websocket/GeminiConnectionPool.java:61-63 | The count is the number of entries, open or not |
| GeminiPool.Pool.HasConnection | src/main/java/com/interview/app/websocket/GeminiConnectionPool.java:68-71 | True exactly when an entry exists and its client is open |
| GeminiPool.Pool.CloseAllConnections | src/main/java/com/interview/app/websocket/GeminiConnectionPool.java:77-88 | Every pooled client gets exactly one close request, interrupted closes included, and the pool ends empty |
| GeminiPool.ClosedAllKeepInv | src/main/java/com/interview/app/websocket/GeminiConnectionPool.java:77-88 | Closing every client keeps every client's invariant |
| GeminiPool.CloseNext | src/main/java/com/interview/app/websocket/GeminiConnectionPool.java:79-85 | One iteration closes one pending client and reports an interrupted close exactly when it happened |
| GeminiPool.CloseEach | src/main/java/com/interview/app/websocket/GeminiConnectionPool.java:78-86 | The forEach loop closes each pooled client once, and no other |
| Interview.Route | src/main/java/com/interview/app/service/InterviewService.java:89-104 | TEXT calls sendTextMessage with the content. Media types call sendRealtimeInput with the same chunk list exactly when it is non-null and non-empty. CONTROL calls nothing |
| Interview.ToClientMessage | src/main/java/com/interview/app/service/InterviewService.java:33-64 | A message goes to "/topic/interview/" + sessionId. Its type is AUDIO exactly for audio events, otherwise TEXT. It carries content only for text responses and a single chunk only for audio |
| Interview.Outbox | src/main/java/com/interview/app/service/InterviewService.java:112-121 | One outgoing message per delivered event |
| Interview.OutboxTopics | src/main/java/com/interview/app/service/InterviewService.java:112-121 | Each outgoing message goes to the topic of the session whose handler received the event, and it is AUDIO exactly for audio |
| Interview.Service.StartInterview | src/main/java/com/interview/app/service/InterviewService.java:25-69 | Exactly one new session is stored under the generated id and its handler is registered under that same id; the id is returned unless setupSession throws, in which case the exception escapes with the session still stored |
| Interview.Service.EndInterview | src/main/java/com/interview/app/service/InterviewService.java:71-78 | The session is removed; removeSession is called exactly when it was present, so a repeated call is a no-op |
| Interview.Service.ProcessMessage | src/main/java/com/interview/app/service/InterviewService.java:80-105 | An unknown session makes no client call. A known one makes the routed call once, and the session table is unchanged |
| Interview.Service.SendMediaToGemini | src/main/java/com/interview/app/service/InterviewService.java:123-126 | Chunks are forwarded without checking that the session is active |
| Media.SingletonCalls | src/main/java/com/interview/app/controller/MediaController.java:30-37 | One call per chunk |
| Media.ForwardedAppend | src/main/java/com/interview/app/controller/MediaController.java:30-37 | Forwarding is in payload order: the chunks forwarded from a concatenation are those of each half, in sequence |
| Media.ForwardedExactly | src/main/java/com/interview/app/controller/MediaController.java:30-37 | With no faulty chunk, every payload item is forwarded, in order, as its own chunk |
| Media.ChunkOfCopies | src/main/java/com/interview/app/controller/MediaController.java:31-33 | A forwarded chunk carries exactly the "mimeType" and "data" strings of its source map |
| Media.StreamResultMeans | src/main/java/com/interview/app/controller/MediaController.java:23-45 | The reply is {status: "success"} exactly when mediaChunks is a list of well-typed maps. A missing list or a bad element is an error reply naming the exception thrown |
| Media.ForwardedStep | src/main/java/com/interview/app/controller/MediaController.java:30-37 | A well-typed item extends the forwarded prefix by its chunk |
| Media.ForwardedStop | src/main/java/com/interview/app/controller/MediaController.java:30-44 | The first faulty item stops forwarding, and its exception is the reply |
| Media.ForwardedDone | src/main/java/com/interview/app/controller/MediaController.java:30-39 | When the loop ends without a fault, every item has been forwarded |
| Media.CallsStep | src/main/java/com/interview/app/controller/MediaController.java:35-36 | One more forwarded chunk is one more singleton sendMediaToGemini call |
| Media.Controller.StreamMedia | src/main/java/com/interview/app/controller/MediaController.java:23-45 | The reply is the stream result. The service receives one singleton call per forwarded chunk, in payload order |
| Media.Controller.ForwardOne | src/main/java/com/interview/app/controller/MediaController.java:31-36 | One iteration makes exactly one singleton call |
| Media.Controller.ForwardItems | src/main/java/com/interview/app/controller/MediaController.java:30-37 | The loop forwards each item up to the first fault and reports that fault |
| Candidates.NewInterviewRound | src/main/java/com/interview/app/model/Candidate.java:64-71 | A new round has status TO_BE_STARTED and every other field null |
| Candidates.NewCandidate | src/main/java/com/interview/app/model/Candidate.java:45-51 | A new candidate has no rounds, status TO_BE_STARTED, and both timestamps set to now |
| Candidates.FullName | src/main/java/com/interview/app/model/Candidate.java:86-88 | The full name is the first name, one space, then the last name, where null prints as "null" |
| Candidates.FullNameSplits | src/main/java/com/interview/app/model/Candidate.java:86-88 | For a first name without spaces, the name splits back at its first space into the two parts |
| Candidates.AsInterviewStatus | src/main/java/com/interview/app/model/Candidate.java:57-59 | Candidate and round statuses correspond by ordinal and by name |
| Candidates.StatusEnumsAlign | src/main/java/com/interview/app/model/Candidate.java:77-79 | The two status enums have the same four values in the same order: the correspondence is a bijection |
| Candidates.ParseInterviewStatus | src/main/java/com/interview/app/controller/CandidateController.java:141-142 | valueOf accepts exactly the four constant names, and the status it returns has that name |
| CandidateRequests.NewCreateCandidateRequest | src/main/java/com/interview/app/dto/CreateCandidateRequest.java:35-37 | An empty create request has no rounds and status TO_BE_STARTED |
| CandidateDtos.FromInterviewRound | src/main/java/com/interview/app/dto/InterviewRoundDto.java:23-33 | All seven round fields are copied unchanged |
| CandidateDtos.ToInterviewRound | src/main/java/com/interview/app/dto/InterviewRoundDto.java:35-45 | A null status stays null, overriding the round's TO_BE_STARTED default |
| CandidateDtos.RoundToDtoAndBack | src/main/java/com/interview/app/dto/InterviewRoundDto.java:23-45 | toInterviewRound(fromInterviewRound(r)) == r |
| CandidateDtos.DtoToRoundAndBack | src/main/java/com/interview/app/dto/InterviewRoundDto.java:23-45 | fromInterviewRound(toInterviewRound(d)) == d |
| CandidateDtos.ToInterviewRounds | src/main/java/com/interview/app/dto/InterviewRoundDto.java:35-45 | Lists map one-to-one, keeping length and order |
| CandidateDtos.FromInterviewRounds | src/main/java/com/interview/app/dto/CandidateDto.java:40-44 | Lists map one-to-one, keeping length and order |
| CandidateDtos.RoundListsRoundTrip | src/main/java/com/interview/app/dto/InterviewRoundDto.java:23-45 | Both list conversions are inverse to each other |
| CandidateDtos.FromCandidate | src/main/java/com/interview/app/dto/CandidateDto.java:28-47 | id, names, email, profile, location, status and both timestamps are copied unchanged, and the rounds map back to the candidate's rounds |
| CandidateDtos.FromCandidateFullName | src/main/java/com/interview/app/dto/CandidateDto.java:49-51 | The DTO's full name is the candidate's |
| CandidateDtos.FromCandidateInjective | src/main/java/com/interview/app/dto/CandidateDto.java:28-47 | Distinct candidates give distinct DTOs: nothing is lost |
| CandidateDtos.FromCandidates | src/main/java/com/interview/app/service/CandidateService.java:54-58 | The list maps one-to-one, in order |
| CandidateDtos.TotalPages | src/main/java/com/interview/app/dto/CandidateSearchResponse.java:24 | The page count is a Java int; with page size 0 it saturates as the double-to-int cast does |
| CandidateDtos.Of | src/main/java/com/interview/app/dto/CandidateSearchResponse.java:22-31 | The candidates, total, current page and page size pass through. hasPrevious holds exactly when currentPage > 0 |
| CandidateDtos.OfPageArithmetic | src/main/java/com/interview/app/dto/CandidateSearchResponse.java:22-31 | For pageSize > 0, totalPages is the ceiling of total / pageSize and hasNext holds exactly when currentPage < totalPages - 1, so it is false with no elements |
| CandidateFilter.AndThen | src/main/java/com/interview/app/service/CandidateService.java:149-265 | Filters chain: a candidate passes exactly when both checks pass |
| CandidateFilter.OrElse | src/main/java/com/interview/app/service/CandidateService.java:254-262 | The `\|\|` of the free-text search: the second check applies only when the first is false |
| CandidateFilter.ContainsCheck | src/main/java/com/interview/app/service/CandidateService.java:151-155 | A case-insensitive substring test that throws on a null field |
| CandidateFilter.TextFilter | src/main/java/com/interview/app/service/CandidateService.java:151-170 | A string filter applies only when it is non-null and non-empty |
| CandidateFilter.EqualsFilter | src/main/java/com/interview/app/service/CandidateService.java:172-176 | An enum filter applies only when set, and passes exactly on equality |
| CandidateFilter.MemberFilter | src/main/java/com/interview/app/service/CandidateService.java:178-182 | A list filter applies only when non-empty, and passes exactly on membership |
| CandidateFilter.AnyLocation | src/main/java/com/interview/app/service/CandidateService.java:194-198 | jobLocations passes when some entry is a case-insensitive substring of the location |
| CandidateFilter.LocationsFilter | src/main/java/com/interview/app/service/CandidateService.java:191-199 | The jobLocations filter applies only when non-empty |
| CandidateFilter.RoundMatchesMeaning | src/main/java/com/interview/app/service/CandidateService.java:267-293 | A round matches exactly when it meets every set round criterion. Scheduled-date bounds are ignored for a round with no scheduledAt |
| CandidateFilter.AnyRoundMeaning | src/main/java/com/interview/app/service/CandidateService.java:245-246 | With round criteria set, a candidate passes exactly when some single round meets them all |
| CandidateFilter.EmptyRequestAcceptsAll | src/main/java/com/interview/app/service/CandidateService.java:149-265 | An all-null request accepts every candidate |
| CandidateFilter.AcceptedMeetsFilters | src/main/java/com/interview/app/service/CandidateService.java:149-265 | An accepted candidate meets every set filter: the substrings, profile and status equality, list membership, date bounds, the round criteria and the search text |
| CandidateFilter.DateBoundsInclusive | src/main/java/com/interview/app/service/CandidateService.java:216-238 | Date bounds are inclusive: a candidate created and updated exactly at the bounds passes |
| CandidateFilter.FailureNeedsNull | src/main/java/com/interview/app/service/CandidateService.java:149-265 | The filter can throw only when a set filter meets a null value: a null candidate field, a null entry in the jobLocations list, or a null type, status or level on some round while that round criterion is set |
| CandidateFilter.AnyLocationFailure | src/main/java/com/interview/app/service/CandidateService.java:194-198 | The locations anyMatch throws only on a null job location or a null entry of the list |
| CandidateFilter.AnyRoundFailure | src/main/java/com/interview/app/service/CandidateService.java:245-278 | The rounds anyMatch throws only when some round has a null field that a set criterion compares |
| CandidateSort.SortKeyOf | src/main/java/com/interview/app/service/CandidateService.java:302-328 | The key is chosen by name, case-insensitively; an unknown name falls back to createdAt |
| CandidateSort.CompareByZero | src/main/java/com/interview/app/service/CandidateService.java:302-328 | Two candidates compare as equal exactly when their keys are equal, the string keys ignoring case |
| CandidateSort.DirectedAntisymmetric | src/main/java/com/interview/app/service/CandidateService.java:296-331 | The directed comparator is antisymmetric in both directions |
| CandidateSort.DirectedTransitive | src/main/java/com/interview/app/service/CandidateService.java:296-331 | The directed comparator is transitive on non-null keys |
| CandidateSort.Insert | src/main/java/com/interview/app/service/CandidateService.java:330 | Insertion adds exactly one element |
| CandidateSort.InsertSorted | src/main/java/com/interview/app/service/CandidateService.java:330 | Inserting into a sorted list keeps it sorted |
| CandidateSort.Sort | src/main/java/com/interview/app/service/CandidateService.java:330 | The sorted list is a permutation of the input |
| CandidateSort.SortSorted | src/main/java/com/interview/app/service/CandidateService.java:330 | The sorted list is ordered by the directed comparator |
| CandidateSort.ApplySortingMeaning | src/main/java/com/interview/app/service/CandidateService.java:295-333 | The sort throws exactly when two or more candidates are compared and one has a null key. Otherwise it returns a permutation ordered by the key, ascending exactly when the direction is "ASC" ignoring case |
| CandidateSearch.FilterCandidates | src/main/java/com/interview/app/service/CandidateService.java:128-130 | Filtering never adds candidates |
| CandidateSearch.CountMatchingBound | src/main/java/com/interview/app/service/CandidateService.java:128-133 | At most as many matches as candidates |
| CandidateSearch.FilterFailure | src/main/java/com/interview/app/service/CandidateService.java:128-130 | The stream throws exactly when some candidate's check throws |
| CandidateSearch.FilterMeaning | src/main/java/com/interview/app/service/CandidateService.java:128-130 | The result holds, in order, exactly the accepted candidates, and its length is their count |
| CandidateSearch.AcceptAllKeepsAll | src/main/java/com/interview/app/service/CandidateService.java:128-130 | A filter accepting everyone keeps the whole list |
| CandidateSearch.PageBounds | src/main/java/com/interview/app/service/CandidateService.java:136-141 | A successful slice lies within the list |
| CandidateSearch.PageBoundsMeaning | src/main/java/com/interview/app/service/CandidateService.java:136-141 | The page is [page*size, min(page*size+size, n)) in 32-bit arithmetic, and a start beyond n raises |
| CandidateSearch.SearchPageMeaning | src/main/java/com/interview/app/service/CandidateService.java:133-146 | The page is a slice of the sorted matches with at most size elements, and the reported total is the number of matches |
| CandidateSearch.SearchMeaning | src/main/java/com/interview/app/service/CandidateService.java:121-147 | totalElements is the number of matching candidates, the page holds at most size DTOs, and every DTO on the page is of a matching candidate |
| CandidateSearch.EmptyFilterFirstPage | src/main/java/com/interview/app/service/CandidateService.java:121-147 | With no filter and the default sort key, in either direction, the first page of any size up to the number of candidates is full, the total is every candidate and there is no previous page |
| CandidateSearch.EmptyFilterKeepsAll | src/main/java/com/interview/app/service/CandidateService.java:128-130 | The empty request keeps every candidate |
| CandidateSearch.DefaultPageOfAll | src/main/java/com/interview/app/service/CandidateService.java:133-141 | Sorting by createdAt never throws, in either direction, and the first page of any size up to the number of candidates is full |
| CandidateRounds.AllDecidedIsFinal | src/main/java/com/interview/app/service/CandidateService.java:416-443 | When every round is decided, the candidate is SELECTED if some round is SELECTED, otherwise REJECTED |
| CandidateRounds.UndecidedIsOpen | src/main/java/com/interview/app/service/CandidateService.java:416-443 | With an undecided round, the candidate is IN_PROGRESS if some round is IN_PROGRESS, otherwise unchanged |
| CandidateRounds.AggregateNeverRestarts | src/main/java/com/interview/app/service/CandidateService.java:416-443 | Aggregation never sets TO_BE_STARTED: the result is a round outcome or the old status |
| CandidateRounds.FirstRoundWithId | src/main/java/com/interview/app/service/CandidateService.java:354-356 | The first round with that id, or none when no round has it |
| CandidateRounds.ApplyRoundStatusShape | src/main/java/com/interview/app/service/CandidateService.java:358-371 | Only the targeted round changes, the round count is kept, and updatedAt is set to now |
| CandidateRounds.ApplyRoundStatusTimes | src/main/java/com/interview/app/service/CandidateService.java:358-368 | IN_PROGRESS sets startedAt, SELECTED or REJECTED set completedAt, and the new status is stored |
| CandidateRounds.StartingPromotes | src/main/java/com/interview/app/service/CandidateService.java:362-364 | Starting a round promotes a TO_BE_STARTED candidate to IN_PROGRESS |
| CandidateRounds.DecidingLastRoundSettles | src/main/java/com/interview/app/service/CandidateService.java:366-368 | Deciding the last undecided round gives the candidate a final status |
| CandidateRounds.RoundUpdateNeverRestarts | src/main/java/com/interview/app/service/CandidateService.java:358-371 | A round update never moves a started candidate back to TO_BE_STARTED |
| CandidateRounds.ByIdIsByFirstIndex | src/main/java/com/interview/app/service/CandidateService.java:349-382 | The by-id update fails exactly when no round has the id, and otherwise is the by-index update at the first match |
| CandidateRounds.ByIndexFailsOnlyOutside | src/main/java/com/interview/app/service/CandidateService.java:389-391 | The by-index update fails exactly for an index outside [0, size) |
| CandidateStore.Overwrite | src/main/java/com/interview/app/service/CandidateService.java:83-102 | A null request field leaves the stored value unchanged |
| CandidateStore.CreateSpecMeaning | src/main/java/com/interview/app/service/CandidateService.java:26-52 | Creation fails exactly on an existing email. Otherwise the new candidate has the request's fields, its rounds and status, and both timestamps now |
| CandidateStore.CreateKeepsValid | src/main/java/com/interview/app/service/CandidateService.java:26-52 | Creation keeps ids consistent and emails unique |
| CandidateStore.UpdateSpecMeaning | src/main/java/com/interview/app/service/CandidateService.java:70-110 | Update fails on an unknown id or on a change to an email that already exists. Otherwise it overwrites exactly the non-null fields and stamps updatedAt |
| CandidateStore.UpdateKeepsValid | src/main/java/com/interview/app/service/CandidateService.java:70-110 | Updates keep ids consistent and emails unique |
| CandidateStore.EmptyUpdateTouchesOnlyTime | src/main/java/com/interview/app/service/CandidateService.java:83-104 | An all-null update changes nothing but updatedAt |
| CandidateStore.UpdateIdempotent | src/main/java/com/interview/app/service/CandidateService.java:70-110 | Applying the same update again to its own result changes only updatedAt |
| CandidateStore.AddedRoundIsFound | src/main/java/com/interview/app/service/CandidateService.java:336-347 | An added round is appended last, and can be found by its id when no earlier round has it |
| CandidateStore.RoundUpdateKeepsValid | src/main/java/com/interview/app/service/CandidateService.java:349-382 | A by-id round update keeps the repository valid and changes no id or email |
| CandidateStore.RoundUpdateByIndexKeepsValid | src/main/java/com/interview/app/service/CandidateService.java:384-413 | A by-index round update keeps the repository valid and changes no id or email |
| CandidateStore.OwnsSpec | src/main/java/com/interview/app/service/CandidateService.java:446-449 | Ownership holds exactly when the candidate exists and its email equals the user's. A null candidate email throws |
| CandidateStore.Outcome | src/main/java/com/interview/app/service/CandidateService.java:50-51 | A saved candidate is returned as its DTO, and an error passes through |
| CandidateStore.CandidateService.FindAll | src/main/java/com/interview/app/service/CandidateService.java:55 | findAll lists each stored candidate exactly once, each under its own id, in an order left open |
| CandidateStore.ListingCountsMatches | src/main/java/com/interview/app/service/CandidateService.java:124-127 | However findAll orders the candidates, the number of matches counted over the list is the number of stored candidates that match |
| CandidateStore.CandidateService.CreateCandidate | src/main/java/com/interview/app/service/CandidateService.java:26-52 | The repository and the reply are those of the creation rule |
| CandidateStore.CandidateService.GetAllCandidates | src/main/java/com/interview/app/service/CandidateService.java:54-58 | One DTO per stored candidate, and nothing else |
| CandidateStore.CandidateService.GetCandidateById | src/main/java/com/interview/app/service/CandidateService.java:60-63 | The DTO of the candidate with that id, or empty |
| CandidateStore.CandidateService.GetCandidateByEmail | src/main/java/com/interview/app/service/CandidateService.java:65-68 | The DTO of a candidate with that email, or empty when none has it |
| CandidateStore.CandidateService.UpdateCandidate | src/main/java/com/interview/app/service/CandidateService.java:70-110 | The repository and the reply are those of the update rule |
| CandidateStore.CandidateService.DeleteCandidate | src/main/java/com/interview/app/service/CandidateService.java:112-118 | An unknown id is an error and changes nothing; otherwise exactly that candidate is removed |
| CandidateStore.CandidateService.SearchCandidates | src/main/java/com/interview/app/service/CandidateService.java:121-147 | The reply is the search specification applied to a listing of the repository, so it fails exactly where the filter, sort or slice throws. On success the total is the number of matching stored candidates, and the page holds at most size DTOs, each of a matching candidate |
| CandidateStore.CandidateService.AddInterviewRound | src/main/java/com/interview/app/service/CandidateService.java:336-347 | The repository and the reply are those of the add-round rule |
| CandidateStore.CandidateService.UpdateInterviewRoundStatus | src/main/java/com/interview/app/service/CandidateService.java:349-382 | The repository and the reply are those of the by-id round rule |
| CandidateStore.CandidateService.UpdateInterviewRoundStatusByIndex | src/main/java/com/interview/app/service/CandidateService.java:384-413 | The repository and the reply are those of the by-index round rule |
| CandidateStore.CandidateService.IsUserOwnCandidate | src/main/java/com/interview/app/service/CandidateService.java:446-449 | The answer is the ownership rule, and nothing changes |
| CandidateApi.CountStatus | src/main/java/com/interview/app/controller/CandidateController.java:195-206 | A status count never exceeds the number of candidates |
| CandidateApi.StatusCountsAddUp | src/main/java/com/interview/app/controller/CandidateController.java:191-217 | The total is the number of candidates, and the four counts plus the null-status count add up to it |
| CandidateApi.NoNullStatusSumsToTotal | src/main/java/com/interview/app/controller/CandidateController.java:194-206 | With no null status, the four counts sum to the total |
| CandidateApi.NoneCountZero | src/main/java/com/interview/app/controller/CandidateController.java:195-206 | With no null status, no candidate is counted as null |
| CandidateApi.CountStatusAppend | src/main/java/com/interview/app/controller/CandidateController.java:195-206 | Counts add over concatenation |
| CandidateApi.CountStatusPermutation | src/main/java/com/interview/app/controller/CandidateController.java:195-206 | Counts do not depend on the order of the candidates |
| CandidateApi.StatsOrderIndependent | src/main/java/com/interview/app/controller/CandidateController.java:191-217 | The statistics are the same for every order findAll may return |
| CandidateApi.DefaultSearchIsFirstPage | src/main/java/com/interview/app/controller/CandidateController.java:95-110 | With no arguments the search is page 0, size 20, createdAt, DESC, with an empty filter |
| CandidateApi.GivenArgumentsPassThrough | src/main/java/com/interview/app/controller/CandidateController.java:95-110 | Given arguments and body are passed to the service unchanged |
| CandidateApi.ParseStatusUpdate | src/main/java/com/interview/app/controller/CandidateController.java:135-142 | A missing "status" is the "status required" error. An unknown name is "Invalid status value". A known name parses to that status |
| CandidateApi.ServiceReply | src/main/java/com/interview/app/controller/CandidateController.java:143-155 | Success is 200 with the DTO. An IllegalArgumentException maps to "Invalid status value". Any other failure returns its message |
| CandidateApi.CandidateController.UpdateInterviewRoundStatus | src/main/java/com/interview/app/controller/CandidateController.java:131-156 | Without a valid status the service is never called. Otherwise the reply is the service outcome's |
| CandidateApi.CandidateController.UpdateInterviewRoundStatusByIndex | src/main/java/com/interview/app/controller/CandidateController.java:161-186 | Without a valid status the service is never called. Otherwise the reply is the service outcome's |
| CandidateApi.CandidateController.GetCandidateStats | src/main/java/com/interview/app/controller/CandidateController.java:191-217 | totalCandidates is the number of candidates, and each count is the number with that status |
| Users.RoleName | src/main/java/com/interview/app/model/User.java:38-40 | A role's name is "USER" or "ADMIN" |
| Users.RoleNameInjective | src/main/java/com/interview/app/model/User.java:38-40 | Distinct roles have distinct names |
| Users.NewUser | src/main/java/com/interview/app/model/User.java:30-36 | A new user has role USER, is active, was created now and has never logged in |
| UserDtos.FromUser | src/main/java/com/interview/app/dto/UserDto.java:20-29 | id, email, names, role and active flag are copied unchanged |
| UserDtos.FromUserHidesPassword | src/main/java/com/interview/app/dto/UserDto.java:13-29 | The DTO does not depend on the password, so the password is never exposed |
| UserDtos.FromUserDeterminesRest | src/main/java/com/interview/app/dto/UserDto.java:20-29 | Two users with the same DTO differ at most in password and timestamps |
| UserDtos.FromUserFullName | src/main/java/com/interview/app/dto/UserDto.java:31-33 | The DTO's full name is firstName + " " + lastName |
| UserDtos.NewLoginResponse | src/main/java/com/interview/app/dto/LoginResponse.java:14-20 | A login response carries the token and user, with type "Bearer" |
| Principals.UserPrincipal.Authorities | src/main/java/com/interview/app/security/UserPrincipal.java:33-38 | Exactly one authority, "ROLE_" + the role's name. A null role throws |
| Principals.Create | src/main/java/com/interview/app/security/UserPrincipal.java:23-31 | id, email, password, role and active flag are copied from the user |
| Principals.PrincipalOfUser | src/main/java/com/interview/app/security/UserPrincipal.java:23-63 | The username is the email and enabled equals active. The account is never expired or locked. The authority is ROLE_USER or ROLE_ADMIN according to the role |
| Principals.AuthoritiesDetermineRole | src/main/java/com/interview/app/security/UserPrincipal.java:33-38 | The authority names the role exactly |
| UserStore.CreateUserSpecMeaning | src/main/java/com/interview/app/service/UserService.java:42-60 | Registration fails exactly when any user has the email. A new user has role USER, is active and stores the encoder's output as the password |
| UserStore.CreateKeepsValid | src/main/java/com/interview/app/service/UserService.java:42-60 | Registration keeps ids consistent and emails unique |
| UserStore.RegisteredUserCanLogIn | src/main/java/com/interview/app/service/UserService.java:27-60 | A just-registered user is the only user with that email, is enabled and has authority ROLE_USER |
| UserStore.PromoteSpecMeaning | src/main/java/com/interview/app/service/UserService.java:79-88 | An unknown id raises. Otherwise the role becomes ADMIN and no other field changes |
| UserStore.PromoteIdempotent | src/main/java/com/interview/app/service/UserService.java:79-88 | Promoting twice is promoting once |
| UserStore.PromotedIsAdmin | src/main/java/com/interview/app/service/UserService.java:79-88 | A promoted user's principal has authority ROLE_ADMIN |
| UserStore.PromoteKeepsValid | src/main/java/com/interview/app/service/UserService.java:79-88 | Promotion keeps the repository valid |
| UserStore.LastLoginMeaning | src/main/java/com/interview/app/service/UserService.java:66-71 | An unknown id is a no-op; otherwise only that user's lastLogin changes |
| UserStore.LastLoginKeepsValid | src/main/java/com/interview/app/service/UserService.java:66-71 | The login stamp keeps the repository valid |
| UserStore.UserService.FindByEmail | src/main/java/com/interview/app/service/UserService.java:62-64 | Returns a stored active user with that email exactly when one exists; inactive users are never returned |
| UserStore.UserService.LoadUserByUsername | src/main/java/com/interview/app/service/UserService.java:27-33 | The principal of an active user with that email, and UsernameNotFoundException exactly when there is none |
| UserStore.UserService.LoadUserById | src/main/java/com/interview/app/service/UserService.java:35-40 | The principal of the user with that id, active or not, and an error exactly for an unknown id |
| UserStore.UserService.GetUserById | src/main/java/com/interview/app/service/UserService.java:73-77 | The DTO of the user with that id, and an error exactly for an unknown id |
| UserStore.UserService.CreateUser | src/main/java/com/interview/app/service/UserService.java:42-60 | The repository and the reply are those of the registration rule |
| UserStore.UserService.UpdateLastLogin | src/main/java/com/interview/app/service/UserService.java:66-71 | The repository is that of the login-stamp rule |
| UserStore.UserService.PromoteToAdmin | src/main/java/com/interview/app/service/UserService.java:79-88 | The repository and the reply are those of the promotion rule |
| WsAuth.BearerToken | src/main/java/com/interview/app/security/WebSocketAuthInterceptor.java:32-33 | A token is read exactly when the header has text and starts with "Bearer ". The token is the header with its first 7 characters removed |
| WsAuth.PrefixImpliesText | src/main/java/com/interview/app/security/WebSocketAuthInterceptor.java:32 | A header with the prefix always has text |
| WsAuth.BearerRoundTrip | src/main/java/com/interview/app/security/WebSocketAuthInterceptor.java:32-33 | "Bearer " + token reads back as token |
| WsAuth.Authenticate | src/main/java/com/interview/app/security/WebSocketAuthInterceptor.java:36-40 | The authentication carries the principal of the token's user and its authorities. It throws for an unknown id or a user without a role |
| WsAuth.DecisionMeaning | src/main/java/com/interview/app/security/WebSocketAuthInterceptor.java:26-53 | Non-CONNECT commands get no user. A user is attached, or the lookup throws, exactly on a CONNECT whose header has text, starts with "Bearer " and whose token validates. The user is the principal of header[7..]'s user |
| WsAuth.ValidTokenAuthenticates | src/main/java/com/interview/app/security/WebSocketAuthInterceptor.java:29-42 | A CONNECT with a valid bearer token of a stored user with a role authenticates that user |
| WsAuth.WebSocketAuthInterceptor.PreSend | src/main/java/com/interview/app/security/WebSocketAuthInterceptor.java:26-53 | The message handed in is returned. The user is attached exactly when the decision says so; a throwing lookup attaches nobody |

## Left out

- WebSocket transport internals are not modelled. These are `connectBlocking`, `reconnectBlocking`, `closeBlocking`, `send`, `isOpen` and `getReadyState` of the socket library. They are represented by a ready state, connect and close outcomes passed in as parameters, and a ghost log of sent frames. Two things the library does are kept. A failed connect runs `onError` and then `onClose`. `connect()` refuses a client that already started a connection. The close outcome is a free parameter, so the model also lets a completed close (`CloseCompleted`) happen on a client that never started a connection. In the library, `closeBlocking` on such a client waits on a latch that nothing releases, so that call ends only by interruption (`CloseInterrupted`). The model therefore admits more outcomes than the library for `Pool.RemoveConnection` and `Pool.CloseAllConnections` on never-started clients; it misses none.
- The close-code `switch` of `onClose` (GeminiWebSocketClient.java:123-147) is left out: it only logs, and the behaviour is the same for every code of section 7.4.1 of RFC 6455.
- The `Thread.sleep` after connecting (GeminiWebSocketClient.java:199) is left out. It changes timing only.
- Jackson serialisation and parsing, and UTF-8 decoding of binary frames, are left out. Frames are JSON values, and `onMessage` receives the decoded value, or none when parsing fails.
- Concurrency is left out: `ConcurrentHashMap`, and the socket's receive thread racing with callers. Every operation is sequential.
- The order in which handlers are notified is modelled as registration order. `ConcurrentHashMap.values()` leaves it unspecified; what each handler receives, and in what order, does not depend on it.
- An interrupted connect or reconnect is modelled as a call that returns at once. The connect still running in the background, and the reset that `reconnectBlocking` performs before connecting, are not modelled.
- The trust-all SSL setup (GeminiConnectionPool.java:105-121) is left out. `URI` parsing is a boolean parameter of `GetConnection`.
- Logging is left out throughout.
- `handleControlMessage` is not modelled: its body is empty.
- `onOpen` is not modelled: it only sets `isConnected`, and `Connect` does that on success.
- Strings are ASCII. `toLowerCase`, `equalsIgnoreCase` and `compareToIgnoreCase` are modelled on ASCII letters only.
- `LocalDateTime.now()`, `UUID.randomUUID()` and the repositories' id allocation are passed in as `now` and `newId`.
- MongoDB is not modelled. Repositories are maps from id to document. `findAll` returns each document once in an order the model leaves open. The unique email index is the invariant `ValidRepo` / `ValidUsers`.
- Spring Security plumbing is not part of this model: `AuthController`, `AdminController`, the `@PreAuthorize` expressions and `@Valid`/`@Email` validation. `JwtTokenProvider` is also not part of this model; token validation and the token's user id are function parameters. `PasswordEncoder` is the parameter `encode`.
- Also not part of this model: `DiagnosticController`, `InterviewWebSocketController`, `InterviewController`, `CorsConfig`, `GeminiConfig` and `InterviewAppApplication`. `SimpMessagingTemplate` delivery is modelled as the outbox list.
- The STOMP accessor being null for non-STOMP messages is not modelled. A message's command is an `Option`, so a missing command is covered.
- CandidateDtos.FromCandidate: the branch for a null round list (CandidateDto.java:40-44) is not modelled. Rounds are always a list, because both the entity and the create request initialise it.
- CandidateSort.ApplySortingMeaning: does not state that the sort is stable. `List.sort` is a stable merge sort; the model uses an insertion sort that is sorted and a permutation, but stability is not proved.
- CandidateDtos.TotalPages: `Math.ceil` on a double is modelled as exact integer ceiling division followed by the saturating int cast. Rounding of totals above 2^53 is not modelled.
- Media.StreamResultMeans: the error reply names the kind of exception (NullPointerException or ClassCastException) rather than the text of `e.getMessage()`. That text is produced by the Java runtime and is not part of this code.
- GeminiSession.RealtimeSendsChunks: a null element inside a STOMP message's media-chunk list (`InterviewMessage.mediaChunks`) is not modelled, because list elements are values. In the code, such an element makes `chunk.getMimeType()` throw a NullPointerException in the chunk loop of `sendRealtimeInput` (GeminiWebSocketClient.java:237-241). The catch at :251 swallows it, so no frame is sent. The model's `Route` and `RealtimeSpec` would send a frame for that input.
- Null elements inside a request's interview-round list are not modelled. Such an element makes `dto.toInterviewRound()` throw a NullPointerException in `createCandidate` and `updateCandidate` (CandidateService.java:44, 100). List elements are values in the model.
- WsAuth.WebSocketAuthInterceptor.PreSend: returns the message only on the non-throwing path. An exception from `loadUserById`, or from reading the authorities of a user without a role, is the call's result.

## Where the code and its description differ

The model follows the code in each case:

- The setup frame is sent once per `setupSession` call, when the client is connected afterwards. It is not sent on every transition to open.
- `sendTextMessage` has no `isConnected` guard: it sends whenever the socket is open.
- A failed connect does not only tell the waiting handler. The socket library runs `onClose` after a failed connect or reconnect, and `onClose` calls `onDisconnect` on every registered handler. After a failed first connect the new handler hears `onDisconnect` twice.
- A `setupSession` on a client whose socket is closing, for example after an interrupted close, throws IllegalStateException from the library's `connect()`. So does one on a client whose earlier connect was interrupted. Neither `setupSession` nor `startInterview` catches it.
- `responseModalities` is the single string "audio", not a list.
- `preSend` does not always return its message. A failing user lookup propagates as an exception.
