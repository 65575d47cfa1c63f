/**
 * InterviewService: the table of active interview sessions, the routing of browser messages
 * to the relay, and the mapping of relay callbacks to messages for the browser.  The service
 * holds one shared relay client; `calls` is a ghost log of the calls it makes on it.
 */
module Interview {
  import opened Wrappers
  import opened Json
  import opened Messages
  import Text
  import opened GeminiDispatch
  import opened GeminiSession
  import opened GeminiClient

  /** The private record kept per session. */
  datatype InterviewSession = InterviewSession(sessionId: string, userId: Option<string>, startTime: int)

  /** A call on the relay client. */
  datatype ClientCall =
    | SetupSessionCall(sid: string)
    | RemoveSessionCall(sid: string)
    | SendTextCall(sid: string, content: Option<string>)
    | SendRealtimeCall(sid: string, chunks: seq<MediaChunk>)

  /** What processMessage did: routed, dropped for want of a session, or threw a NullPointerException. */
  datatype ProcessOutcome = Processed | NoActiveSession | NullPointer

  /** A message handed to the STOMP broker: a destination and the body sent there. */
  datatype Outgoing = Outgoing(destination: string, body: InterviewMessage)

  const TopicPrefix := "/topic/interview/"

  predicate IsMedia(t: MessageType) {
    t == Audio || t == Video || t == ScreenShare || t == Mixed
  }

  /**
   * The switch of processMessage: TEXT sends the content, the four media types send a
   * non-empty chunk list unchanged, CONTROL and empty media send nothing.
   */
  function Route(sid: string, t: MessageType, msg: InterviewMessage): (r: Option<ClientCall>)
    ensures r.Some? ==> r.value.sid == sid && (r.value.SendTextCall? || r.value.SendRealtimeCall?)
    ensures t == Text ==> r == Some(SendTextCall(sid, msg.content))
    ensures (r.Some? && r.value.SendRealtimeCall?) <==>
              IsMedia(t) && msg.mediaChunks.Some? && |msg.mediaChunks.value| > 0
    ensures r.Some? && r.value.SendRealtimeCall? ==> msg.mediaChunks == Some(r.value.chunks)
    ensures t == Control ==> r == None
  {
    match t
    case Text => Some(SendTextCall(sid, msg.content))
    case Control => None
    case _ =>
      if msg.mediaChunks.Some? && msg.mediaChunks.value != [] then Some(SendRealtimeCall(sid, msg.mediaChunks.value))
      else None
  }

  /** The state change a client call makes. */
  function CallEffect(c: ClientState, call: ClientCall): ClientState {
    match call
    case SendTextCall(_, content) => TextSpec(c, content)
    case SendRealtimeCall(_, chunks) => RealtimeSpec(c, chunks)
    case _ => c
  }

  /** The `type` string each anonymous-handler callback passes to sendMessageToClient. */
  function EventName(e: HandlerEvent): string {
    match e
    case SetupComplete => "SETUP_COMPLETE"
    case AudioData(_, _) => "AUDIO_RESPONSE"
    case TextResponse(_) => "TEXT_RESPONSE"
    case TurnComplete => "TURN_COMPLETE"
    case Interrupted => "INTERRUPTED"
    case Disconnect => "DISCONNECTED"
  }

  /**
   * sendMessageToClient for the callback the handler of session `sid` received: sent to that
   * session's topic, typed AUDIO exactly for audio data, with the text only for a text
   * response and the single chunk only for audio.
   */
  function ToClientMessage(sid: string, e: HandlerEvent, now: int): (r: Outgoing)
    ensures r.destination == TopicPrefix + sid
    ensures r.body.sessionId == Some(sid) && r.body.timestamp == Some(now)
    ensures r.body.msgType == Some(Audio) <==> e.AudioData?
    ensures r.body.msgType == Some(Audio) || r.body.msgType == Some(Text)
    ensures r.body.content.Some? ==> e.TextResponse? && r.body.content == e.text
    ensures e.TextResponse? ==> r.body.content == e.text
    ensures r.body.mediaChunks.Some? <==> e.AudioData?
    ensures e.AudioData? ==> r.body.mediaChunks == Some([MediaChunk(Some(e.mimeType), e.data)])
  {
    var name := EventName(e);
    assert Text.Contains(name, "AUDIO") <==> e.AudioData? by {
      if !e.AudioData? {
        Text.MissingFirstCharNotContained(name, "AUDIO");
      } else {
        assert Text.OccursAt(name, "AUDIO", 0);
      }
    }
    var kind := if Text.Contains(name, "AUDIO") then Audio else Text;
    var content := (match e case TextResponse(t) => t case _ => None);
    var chunks := (match e case AudioData(m, d) => Some([MediaChunk(Some(m), d)]) case _ => None);
    Outgoing(TopicPrefix + sid, InterviewMessage(Some(kind), Some(sid), content, chunks, Some(now)))
  }

  /** The messages the broker receives for a trace of handler calls, one per call. */
  function Outbox(trace: seq<Notification>, clock: seq<int>): (r: seq<Outgoing>)
    requires |clock| == |trace|
    ensures |r| == |trace|
  {
    seq(|trace|, i requires 0 <= i < |trace| => ToClientMessage(trace[i].handler, trace[i].event, clock[i]))
  }

  /** Whatever session a frame was decoded for, each session's topic gets every event of it. */
  lemma {:induction false} OutboxTopics(trace: seq<Notification>, clock: seq<int>, i: nat)
    requires |clock| == |trace| && i < |trace|
    ensures Outbox(trace, clock)[i].destination == TopicPrefix + trace[i].handler
    ensures Outbox(trace, clock)[i].body.msgType == Some(Audio) <==> trace[i].event.AudioData?
  {
    var _ := ToClientMessage(trace[i].handler, trace[i].event, clock[i]);
  }

  class Service {
    const client: Client
    var activeSessions: map<string, InterviewSession>
    ghost var calls: seq<ClientCall>

    /** Table entries are filed under their own id; the active sessions are the registered handlers. */
    ghost predicate Valid()
      reads this, client
    {
      client.Valid() &&
      (forall s :: s in activeSessions ==> activeSessions[s].sessionId == s) &&
      (forall s :: s in activeSessions <==> s in client.handlers)
    }

    constructor (client: Client)
      requires client.Valid() && client.handlers == []
      ensures Valid() && this.client == client && activeSessions == map[] && calls == []
    {
      this.client := client;
      activeSessions := map[];
      calls := [];
    }

    /**
     * startInterview: file a new session under the generated id (`newId` stands for the UUID)
     * and register its handler with the relay under that same id.  An exception from
     * setupSession escapes, with the session already filed and its handler registered.
     */
    method StartInterview(userId: Option<string>, newId: string, now: int,
                          closeOutcome: CloseOutcome, connectOutcome: ConnectOutcome) returns (r: Result<string, string>)
      requires Valid()
      modifies this, client
      ensures Valid()
      ensures activeSessions == old(activeSessions)[newId := InterviewSession(newId, userId, now)]
      ensures calls == old(calls) + [SetupSessionCall(newId)]
      ensures var o := SetupSessionSpec(old(client.State()), client.Setup(), newId, closeOutcome, connectOutcome);
              client.State() == o.state && r == (if o.threw then Failure(NotReusable) else Success(newId))
    {
      var sid := newId;
      activeSessions := activeSessions[sid := InterviewSession(sid, userId, now)];
      SetupSessionRegisters(client.State(), client.Setup(), sid, closeOutcome, connectOutcome);
      RegisterMembers(client.handlers, sid);
      var threw := client.SetupSession(sid, closeOutcome, connectOutcome);
      calls := calls + [SetupSessionCall(sid)];
      if threw {
        return Failure(NotReusable);
      }
      r := Success(sid);
    }

    /** endInterview: remove the session; only a session that was present is removed from the relay. */
    method EndInterview(sid: string, closeOutcome: CloseOutcome)
      requires Valid()
      modifies this, client
      ensures Valid()
      ensures activeSessions == old(activeSessions) - {sid}
      ensures sid in old(activeSessions) ==>
                calls == old(calls) + [RemoveSessionCall(sid)] &&
                client.State() == RemoveSessionSpec(old(client.State()), sid, closeOutcome)
      ensures sid !in old(activeSessions) ==> calls == old(calls) && client.State() == old(client.State())
    {
      var present := sid in activeSessions;
      activeSessions := activeSessions - {sid};
      if present {
        UnregisterMembers(client.handlers, sid);
        client.RemoveSession(sid, closeOutcome);
        calls := calls + [RemoveSessionCall(sid)];
      }
    }

    /**
     * processMessage: a null session id or a null type throws (the table lookup and the
     * switch dereference them); an unknown session makes no call; otherwise Route decides.
     */
    method ProcessMessage(msg: InterviewMessage) returns (outcome: ProcessOutcome)
      requires Valid()
      modifies this, client
      ensures Valid() && activeSessions == old(activeSessions)
      ensures outcome == NullPointer <==>
                msg.sessionId.None? || (msg.sessionId.value in activeSessions && msg.msgType.None?)
      ensures outcome == NoActiveSession <==> msg.sessionId.Some? && msg.sessionId.value !in activeSessions
      ensures outcome != Processed ==> calls == old(calls) && client.State() == old(client.State())
      ensures outcome == Processed ==>
                var call := Route(msg.sessionId.value, msg.msgType.value, msg);
                calls == old(calls) + (if call.Some? then [call.value] else []) &&
                client.State() == (if call.Some? then CallEffect(old(client.State()), call.value) else old(client.State()))
    {
      if msg.sessionId.None? {
        return NullPointer;
      }
      var sid := msg.sessionId.value;
      if sid !in activeSessions {
        return NoActiveSession;
      }
      if msg.msgType.None? {
        return NullPointer;
      }
      var call := Route(sid, msg.msgType.value, msg);
      if call.Some? {
        match call.value {
          case SendTextCall(_, content) =>
            client.SendTextMessage(sid, content);
          case SendRealtimeCall(_, chunks) =>
            client.SendRealtimeInput(sid, chunks);
        }
        calls := calls + [call.value];
      }
      outcome := Processed;
    }

    /** sendMediaToGemini: straight to the relay, active session or not. */
    method SendMediaToGemini(sid: string, chunks: seq<MediaChunk>)
      requires Valid()
      modifies this, client
      ensures Valid() && activeSessions == old(activeSessions)
      ensures calls == old(calls) + [SendRealtimeCall(sid, chunks)]
      ensures client.State() == RealtimeSpec(old(client.State()), chunks)
    {
      client.SendRealtimeInput(sid, chunks);
      calls := calls + [SendRealtimeCall(sid, chunks)];
    }
  }
}
