/**
 * GeminiWebSocketClient as a class: the ready state, the `isConnected` flag and the handler
 * registry are fields the methods update; `wire`, `notified` and `closeRequests` are ghost
 * logs standing in for `send`, for the handler callbacks and for `closeBlocking` calls.
 * Every public method is proved to take the state to the matching GeminiSession function of
 * the old state, so the lemmas proved there are facts about these methods.
 */
module GeminiClient {
  import opened Wrappers
  import opened Json
  import opened Messages
  import opened GeminiWire
  import opened GeminiDispatch
  import opened GeminiSession

  class Client {
    const uri: string
    const sessionId: Option<string>
    const defaultVoice: Option<string>
    const systemInstruction: Option<string>
    const headers: seq<(string, string)>
    var readyState: ReadyState
    var isConnected: bool
    var connectCalled: bool
    var handlers: seq<string>
    ghost var wire: seq<WireEntry>
    ghost var notified: seq<Notification>
    ghost var closeRequests: nat

    ghost function State(): ClientState
      reads this
    {
      ClientState(readyState, isConnected, connectCalled, handlers, wire, notified, closeRequests)
    }

    ghost predicate Valid()
      reads this
    {
      Inv(State())
    }

    /** The handshake this client sends, fixed by the voice and instruction it was built with. */
    function Setup(): Json {
      SetupFrame(defaultVoice, systemInstruction)
    }

    /**
     * Both Java constructors: the shared bean passes no session, voice or instruction.
     * Every client announces the same two HTTP headers.
     */
    constructor (uri: string, sessionId: Option<string>, defaultVoice: Option<string>, systemInstruction: Option<string>)
      ensures Valid() && State() == Initial
      ensures this.uri == uri && this.sessionId == sessionId
      ensures this.defaultVoice == defaultVoice && this.systemInstruction == systemInstruction
      ensures headers == [("Origin", "http://localhost:8080"), ("User-Agent", "Interview-App/1.0")]
    {
      this.uri := uri;
      this.sessionId := sessionId;
      this.defaultVoice := defaultVoice;
      this.systemInstruction := systemInstruction;
      headers := [("Origin", "http://localhost:8080"), ("User-Agent", "Interview-App/1.0")];
      readyState := NotYetConnected;
      isConnected := false;
      connectCalled := false;
      handlers := [];
      wire := [];
      notified := [];
      closeRequests := 0;
    }

    /** `send`: the frame is on the wire only if the socket is open. */
    method Send(frame: Json)
      modifies this
      ensures State() == Transmit(old(State()), frame)
    {
      if readyState == Open {
        wire := wire + [Sent(frame)];
      }
    }

    /** `sessionHandlers.values().forEach(h -> ...)` for one event. */
    method NotifyAll(e: HandlerEvent)
      modifies this
      ensures State() == old(State()).(notified := old(notified) + Fanout(handlers, e))
    {
      for i := 0 to |handlers|
        invariant notified == old(notified) + Fanout(handlers[..i], e)
        invariant State() == old(State()).(notified := notified)
      {
        assert Fanout(handlers[..i + 1], e) == Fanout(handlers[..i], e) + [Notify(handlers[i], e)];
        notified := notified + [Notify(handlers[i], e)];
      }
      assert handlers[..|handlers|] == handlers;
    }

    /** onClose: the flag drops, the socket is closed, every handler hears onDisconnect. */
    method OnClose()
      requires Valid()
      modifies this
      ensures Valid() && State() == OnCloseSpec(old(State()))
    {
      readyState := Closed;
      isConnected := false;
      NotifyAll(Disconnect);
      assert Broadcast(handlers, [Disconnect]) == Fanout(handlers, Disconnect) + Broadcast(handlers, []);
      OtherTransitionsKeepInv(old(State()), None, [], None);
    }

    /** onError: the flag drops and nobody is told. */
    method OnError()
      requires Valid()
      modifies this
      ensures Valid() && State() == OnErrorSpec(old(State()))
    {
      isConnected := false;
    }

    /** Each event in turn to every registered handler. */
    method NotifyEach(events: seq<HandlerEvent>)
      modifies this
      ensures State() == Notified(old(State()), events)
    {
      for i := 0 to |events|
        invariant notified == old(notified) + Broadcast(handlers, events[..i])
        invariant handlers == old(handlers) && wire == old(wire) && closeRequests == old(closeRequests)
        invariant readyState == old(readyState) && isConnected == old(isConnected) && connectCalled == old(connectCalled)
      {
        BroadcastSnoc(handlers, events[..i], events[i]);
        assert events[..i + 1] == events[..i] + [events[i]];
        NotifyAll(events[i]);
      }
      assert events[..|events|] == events;
    }

    /** Both onMessage overloads: decode, dispatch, fan each event out to every handler. */
    method OnMessage(decoded: Option<Json>)
      requires Valid()
      modifies this
      ensures Valid() && State() == OnMessageSpec(old(State()), decoded)
    {
      OtherTransitionsKeepInv(State(), decoded, [], None);
      NotifyEach(FrameEvents(decoded));
    }

    /** closeBlocking; the result says whether it was interrupted. */
    method CloseBlocking(outcome: CloseOutcome) returns (interrupted: bool)
      modifies this
      ensures State() == CloseSpec(old(State()), outcome)
      ensures ClosedOnce(old(State()), State()) && (old(Valid()) ==> Valid())
      ensures interrupted <==> old(readyState) != Closed && outcome == CloseInterrupted
    {
      if Valid() {
        CloseKeepsInv(State(), outcome);
      }
      closeRequests := closeRequests + 1;
      interrupted := false;
      if readyState != Closed {
        if outcome == CloseCompleted {
          readyState := Closed;
          isConnected := false;
          NotifyAll(Disconnect);
          assert Broadcast(handlers, [Disconnect]) == Fanout(handlers, Disconnect) + Broadcast(handlers, []);
        } else {
          interrupted := true;
          if readyState == Open {
            readyState := Closing;
          }
        }
      }
    }

    /**
     * connectBlocking, or the connect of reconnectBlocking, when the wait is not interrupted:
     * a connect that completes runs onOpen; one that fails runs onError and then onClose.
     */
    method Connect(succeeds: bool) returns (connected: bool)
      modifies this
      ensures connected == succeeds
      ensures succeeds ==> State() == OpenedSpec(old(State()))
      ensures !succeeds ==> State() == ConnectFailedSpec(old(State()))
    {
      connectCalled := true;
      connected := succeeds;
      if succeeds {
        readyState := Open;
        wire := wire + [Opened];
        isConnected := true;
      } else {
        isConnected := false;
        readyState := Closed;
        NotifyAll(Disconnect);
        assert Broadcast(handlers, [Disconnect]) == Fanout(handlers, Disconnect) + Broadcast(handlers, []);
      }
    }

    /** sendSetupMessage: the handshake, dropped when the socket is not open. */
    method SendSetupMessage(sid: string)
      modifies this
      ensures State() == Transmit(old(State()), Setup())
    {
      if readyState != Open {
        return;
      }
      Send(Setup());
    }

    /**
     * setupSession: register, clear a stale socket, connect if needed, then handshake.
     * `threw` reports the IllegalStateException of a connect on a started client, which
     * setupSession does not catch.
     */
    method SetupSession(sid: string, closeOutcome: CloseOutcome, connectOutcome: ConnectOutcome) returns (threw: bool)
      requires Valid()
      modifies this
      ensures Valid()
      ensures SetupOutcome(State(), threw) == SetupSessionSpec(old(State()), Setup(), sid, closeOutcome, connectOutcome)
    {
      SetupFrameContents(defaultVoice, systemInstruction);
      SetupSessionKeepsInv(State(), Setup(), sid, closeOutcome, connectOutcome);
      var _ := ClearStaleSocket(sid, closeOutcome);
      threw := ConnectAndHandshake(sid, connectOutcome);
    }

    method ClearStaleSocket(sid: string, closeOutcome: CloseOutcome) returns (interrupted: bool)
      modifies this
      ensures State() == ClearStale(old(State()), sid, closeOutcome)
      ensures interrupted <==> old(readyState) == Open && !old(isConnected) && closeOutcome == CloseInterrupted
    {
      if sid !in handlers {
        handlers := handlers + [sid];
      }
      interrupted := false;
      if readyState == Open && !isConnected {
        interrupted := CloseBlocking(closeOutcome);
      }
    }

    method ConnectAndHandshake(sid: string, outcome: ConnectOutcome) returns (threw: bool)
      modifies this
      ensures SetupOutcome(State(), threw) == ConnectAndSetup(old(State()), Setup(), sid, outcome)
    {
      threw := false;
      if !isConnected || readyState != Open {
        if readyState == Closed {
          if outcome == ConnectInterrupted {
            return;
          }
          var _ := Connect(outcome == Connected);
        } else {
          if readyState != NotYetConnected || connectCalled {
            threw := true;
            return;
          }
          if outcome == ConnectInterrupted {
            connectCalled := true;
            return;
          }
          var connected := Connect(outcome == Connected);
          if !connected {
            notified := notified + [Notify(sid, Disconnect)];
            return;
          }
        }
      }
      if isConnected {
        SendSetupMessage(sid);
      }
    }

    /** removeSession: unregister; close the socket once nobody is left on an open one. */
    method RemoveSession(sid: string, closeOutcome: CloseOutcome)
      requires Valid()
      modifies this
      ensures Valid()
      ensures State() == RemoveSessionSpec(old(State()), sid, closeOutcome)
    {
      RemoveSessionKeepsInv(State(), sid, closeOutcome);
      handlers := Unregister(handlers, sid);
      if handlers == [] && readyState == Open {
        var interrupted := CloseBlocking(closeOutcome);
        if !interrupted {
          isConnected := false;
        }
      }
    }

    /** sendRealtimeInput: nothing while the flag is clear, else one realtimeInput frame. */
    method SendRealtimeInput(sid: string, chunks: seq<MediaChunk>)
      requires Valid()
      modifies this
      ensures Valid() && State() == RealtimeSpec(old(State()), chunks)
    {
      OtherTransitionsKeepInv(State(), None, chunks, None);
      if !isConnected {
        return;
      }
      var frame := BuildRealtimeInput(chunks);
      Send(frame);
    }

    /** sendTextMessage: one clientContent frame, whatever the flag says. */
    method SendTextMessage(sid: string, text: Option<string>)
      requires Valid()
      modifies this
      ensures Valid() && State() == TextSpec(old(State()), text)
    {
      OtherTransitionsKeepInv(State(), None, [], text);
      Send(TextFrame(text));
    }
  }
}
