/**
 * The connection-level behaviour of GeminiWebSocketClient as functions on a state record:
 * the transport's ready state, the `isConnected` flag, the handler registry, a log of what
 * went over the wire and a log of handler calls.  The class in GeminiClient is proved to
 * follow these functions step by step; the lemmas here state what they promise.
 *
 * The transport (connectBlocking, reconnectBlocking, closeBlocking, send) is abstract: each
 * blocking call's outcome is an input, and `send` on a socket that is not open delivers
 * nothing (the library throws, and the relay's catch swallows it).  What the socket library
 * does around a connect is kept: a failed attempt runs onError and then onClose, and
 * `connect()` throws an IllegalStateException on a client that already started a connection.
 */
module GeminiSession {
  import opened Wrappers
  import opened Json
  import Messages
  import opened GeminiWire
  import opened GeminiDispatch

  datatype ReadyState = NotYetConnected | Open | Closing | Closed
  datatype ConnectOutcome = Connected | ConnectFailed | ConnectInterrupted
  datatype CloseOutcome = CloseCompleted | CloseInterrupted

  /** The wire log: `Opened` marks a new socket epoch, `Sent` a frame that went out. */
  datatype WireEntry = Opened | Sent(frame: Json)

  /** `connectCalled`: this socket engine already started a connection (its read thread exists). */
  datatype ClientState = ClientState(
    readyState: ReadyState,
    isConnected: bool,
    connectCalled: bool,
    handlers: seq<string>,
    wire: seq<WireEntry>,
    notified: seq<Notification>,
    closeRequests: nat)

  const Initial := ClientState(NotYetConnected, false, false, [], [], [], 0)

  // ----- the ordering rule: a setup frame opens the traffic of every socket epoch

  /** The current epoch (the entries after the last `Opened`) already carries a setup frame. */
  predicate SetupSeen(w: seq<WireEntry>) {
    if w == [] then false
    else match w[|w| - 1]
      case Opened => false
      case Sent(f) => IsSetupFrame(f) || SetupSeen(w[..|w| - 1])
  }

  /** Every frame other than a setup frame follows a setup frame of its own epoch. */
  predicate SetupFirst(w: seq<WireEntry>) {
    w == [] ||
    (SetupFirst(w[..|w| - 1]) &&
     match w[|w| - 1]
     case Opened => true
     case Sent(f) => IsSetupFrame(f) || SetupSeen(w[..|w| - 1]))
  }

  predicate NoOpenedBetween(w: seq<WireEntry>, j: int, i: int)
    requires 0 <= j <= i <= |w|
  {
    forall k :: j < k < i ==> w[k] != Opened
  }

  predicate SetupAt(w: seq<WireEntry>, j: int)
    requires 0 <= j < |w|
  {
    w[j].Sent? && IsSetupFrame(w[j].frame)
  }

  /** Position `i` of the wire log is preceded by a setup frame with no new epoch in between. */
  ghost predicate PrecededBySetup(w: seq<WireEntry>, i: int)
    requires 0 <= i <= |w|
  {
    exists j :: 0 <= j < i && SetupAt(w, j) && NoOpenedBetween(w, j, i)
  }

  lemma {:induction false} SetupSeenMeans(w: seq<WireEntry>)
    requires SetupSeen(w)
    ensures PrecededBySetup(w, |w|)
  {
    var n := |w| - 1;
    var p := w[..n];
    if SetupAt(w, n) {
      assert NoOpenedBetween(w, n, |w|);
    } else {
      SetupSeenMeans(p);
      var j :| 0 <= j < n && SetupAt(p, j) && NoOpenedBetween(p, j, n);
      assert SetupAt(w, j);
      assert NoOpenedBetween(w, j, |w|);
    }
  }

  /** The recursive rule means what it says: each non-setup frame has its epoch's setup before it. */
  lemma {:induction false} SetupFirstMeans(w: seq<WireEntry>, i: int)
    requires SetupFirst(w)
    requires 0 <= i < |w| && w[i].Sent? && !IsSetupFrame(w[i].frame)
    ensures PrecededBySetup(w, i)
  {
    var n := |w| - 1;
    var p := w[..n];
    if i == n {
      SetupSeenMeans(p);
      var j :| 0 <= j < n && SetupAt(p, j) && NoOpenedBetween(p, j, n);
      assert SetupAt(w, j) && NoOpenedBetween(w, j, i);
    } else {
      SetupFirstMeans(p, i);
      var j :| 0 <= j < i && SetupAt(p, j) && NoOpenedBetween(p, j, i);
      assert SetupAt(w, j) && NoOpenedBetween(w, j, i);
    }
  }

  /** Distinct handlers, the ordering rule, and an open socket has had its setup frame. */
  predicate Inv(c: ClientState) {
    Distinct(c.handlers) && SetupFirst(c.wire) && (c.readyState == Open ==> SetupSeen(c.wire))
  }

  // ----- transitions

  /** `send(json)`: delivered only on an open socket. */
  function Transmit(c: ClientState, frame: Json): ClientState {
    if c.readyState == Open then c.(wire := c.wire + [Sent(frame)]) else c
  }

  /** Every event, in order, to every registered handler. */
  function Notified(c: ClientState, events: seq<HandlerEvent>): ClientState {
    c.(notified := c.notified + Broadcast(c.handlers, events))
  }

  /** onClose (GeminiWebSocketClient.java:117-151). */
  function OnCloseSpec(c: ClientState): ClientState {
    Notified(c.(readyState := Closed, isConnected := false), [Disconnect])
  }

  /** onError (GeminiWebSocketClient.java:153-157). */
  function OnErrorSpec(c: ClientState): ClientState {
    c.(isConnected := false)
  }

  /** Both onMessage overloads (GeminiWebSocketClient.java:70-115). */
  function OnMessageSpec(c: ClientState, decoded: Option<Json>): ClientState {
    Notified(c, FrameEvents(decoded))
  }

  /**
   * closeBlocking: on an already closed socket it returns at once; a completed close runs
   * onClose; an interrupted one leaves an open socket closing.
   */
  function CloseSpec(c: ClientState, outcome: CloseOutcome): ClientState {
    var c1 := c.(closeRequests := c.closeRequests + 1);
    if c.readyState == Closed then c1
    else match outcome
      case CloseCompleted => OnCloseSpec(c1)
      case CloseInterrupted => c1.(readyState := if c.readyState == Open then Closing else c.readyState)
  }

  /** One close request was made, completed or interrupted. */
  predicate ClosedOnce(before: ClientState, after: ClientState) {
    after == CloseSpec(before, CloseCompleted) || after == CloseSpec(before, CloseInterrupted)
  }

  function Register(hs: seq<string>, sid: string): seq<string> {
    if sid in hs then hs else hs + [sid]
  }

  function Unregister(hs: seq<string>, sid: string): seq<string> {
    if hs == [] then [] else (if hs[0] == sid then [] else [hs[0]]) + Unregister(hs[1..], sid)
  }

  /** The message of the IllegalStateException that `connect()` throws on a started client. */
  const NotReusable := "WebSocketClient objects are not reuseable"

  /** `connect()` starts a connection only on a client that never started one. */
  predicate Reusable(c: ClientState) {
    c.readyState == NotYetConnected && !c.connectCalled
  }

  /** A connect that completes runs onOpen: a new socket epoch with the flag set. */
  function OpenedSpec(c: ClientState): ClientState {
    c.(readyState := Open, isConnected := true, connectCalled := true, wire := c.wire + [Opened])
  }

  /** A connect that fails runs onError and then onClose, which tells every registered handler. */
  function ConnectFailedSpec(c: ClientState): ClientState {
    OnCloseSpec(OnErrorSpec(c.(connectCalled := true)))
  }

  /** The state a call leaves behind, and whether an exception escaped from it. */
  datatype SetupOutcome = SetupOutcome(state: ClientState, threw: bool)

  /**
   * setupSession (GeminiWebSocketClient.java:159-207).  After an interrupted close of a stale
   * socket the socket is left closing, so the following connectBlocking throws before its wait.
   */
  function SetupSessionSpec(c: ClientState, setup: Json, sid: string,
                            closeOutcome: CloseOutcome, connectOutcome: ConnectOutcome): SetupOutcome
  {
    ConnectAndSetup(ClearStale(c, sid, closeOutcome), setup, sid, connectOutcome)
  }

  /** The first half of setupSession: register the handler, close a stale open socket. */
  function ClearStale(c: ClientState, sid: string, closeOutcome: CloseOutcome): ClientState {
    var c1 := c.(handlers := Register(c.handlers, sid));
    if c1.readyState == Open && !c1.isConnected then CloseSpec(c1, closeOutcome) else c1
  }

  /**
   * The second half: connect unless already connected and open, then handshake.  A closed
   * socket is reconnected and the result is not looked at; any other socket goes through
   * connectBlocking, which refuses a started client, and whose failure also calls
   * the new handler's onDisconnect.
   */
  function ConnectAndSetup(c: ClientState, setup: Json, sid: string, outcome: ConnectOutcome): SetupOutcome {
    if c.isConnected && c.readyState == Open then SetupOutcome(Transmit(c, setup), false)
    else if c.readyState == Closed then
      match outcome
      case ConnectInterrupted => SetupOutcome(c, false)
      case Connected => SetupOutcome(Transmit(OpenedSpec(c), setup), false)
      case ConnectFailed => SetupOutcome(ConnectFailedSpec(c), false)
    else if !Reusable(c) then SetupOutcome(c, true)
    else match outcome
      case ConnectInterrupted => SetupOutcome(c.(connectCalled := true), false)
      case Connected => SetupOutcome(Transmit(OpenedSpec(c), setup), false)
      case ConnectFailed =>
        var c1 := ConnectFailedSpec(c);
        SetupOutcome(c1.(notified := c1.notified + [Notify(sid, Disconnect)]), false)
  }

  /** removeSession (GeminiWebSocketClient.java:209-223). */
  function RemoveSessionSpec(c: ClientState, sid: string, closeOutcome: CloseOutcome): ClientState {
    var c1 := c.(handlers := Unregister(c.handlers, sid));
    if c1.handlers == [] && c1.readyState == Open then
      var c2 := CloseSpec(c1, closeOutcome);
      if closeOutcome == CloseCompleted then c2.(isConnected := false) else c2
    else c1
  }

  /** sendRealtimeInput (GeminiWebSocketClient.java:225-254). */
  function RealtimeSpec(c: ClientState, chunks: seq<Messages.MediaChunk>): ClientState {
    if c.isConnected then Transmit(c, RealtimeFrame(chunks)) else c
  }

  /** sendTextMessage (GeminiWebSocketClient.java:256-283): no connected guard. */
  function TextSpec(c: ClientState, text: Option<string>): ClientState {
    Transmit(c, TextFrame(text))
  }

  // ----- registry

  lemma {:induction false} UnregisterMembers(hs: seq<string>, sid: string)
    ensures forall h :: h in Unregister(hs, sid) <==> h in hs && h != sid
    ensures Distinct(hs) ==> Distinct(Unregister(hs, sid))
    ensures sid !in hs ==> Unregister(hs, sid) == hs
  {
    if hs != [] {
      UnregisterMembers(hs[1..], sid);
      assert hs == [hs[0]] + hs[1..];
      if Distinct(hs) {
        var r := Unregister(hs, sid);
        var tail := Unregister(hs[1..], sid);
        assert Distinct(hs[1..]) by {
          forall i, j | 0 <= i < j < |hs[1..]| ensures hs[1..][i] != hs[1..][j] {
            assert hs[1..][i] == hs[i + 1] && hs[1..][j] == hs[j + 1];
          }
        }
        if hs[0] != sid {
          assert hs[0] !in tail;
          forall i, j | 0 <= i < j < |r| ensures r[i] != r[j] {
            if i == 0 { assert r[j] == tail[j - 1]; assert r[j] in tail; }
            else { assert r[i] == tail[i - 1] && r[j] == tail[j - 1]; }
          }
        }
      }
    }
  }

  lemma RegisterMembers(hs: seq<string>, sid: string)
    ensures forall h :: h in Register(hs, sid) <==> h in hs || h == sid
    ensures Distinct(hs) ==> Distinct(Register(hs, sid))
    ensures hs <= Register(hs, sid)
  {
  }

  // ----- fan-out

  lemma {:induction false} EventsForAppend(a: seq<Notification>, b: seq<Notification>, h: string)
    ensures EventsFor(a + b, h) == EventsFor(a, h) + EventsFor(b, h)
  {
    if a != [] {
      assert (a + b)[1..] == a[1..] + b;
      EventsForAppend(a[1..], b, h);
    } else {
      assert a + b == b;
    }
  }

  lemma {:induction false} EventsForFanout(hs: seq<string>, e: HandlerEvent, h: string)
    requires Distinct(hs)
    ensures EventsFor(Fanout(hs, e), h) == if h in hs then [e] else []
  {
    if hs != [] {
      var f := Fanout(hs, e);
      assert f[1..] == Fanout(hs[1..], e);
      assert Distinct(hs[1..]) by {
        forall i, j | 0 <= i < j < |hs[1..]| ensures hs[1..][i] != hs[1..][j] {
          assert hs[1..][i] == hs[i + 1] && hs[1..][j] == hs[j + 1];
        }
      }
      EventsForFanout(hs[1..], e, h);
      assert hs == [hs[0]] + hs[1..];
      if hs[0] == h {
        assert h !in hs[1..] by {
          forall k | 0 <= k < |hs[1..]| ensures hs[1..][k] != h { assert hs[1..][k] == hs[k + 1]; }
        }
      }
    }
  }

  /** Each registered handler sees exactly the broadcast events, in order; others see none. */
  lemma {:induction false} EventsForBroadcast(hs: seq<string>, events: seq<HandlerEvent>, h: string)
    requires Distinct(hs)
    ensures EventsFor(Broadcast(hs, events), h) == if h in hs then events else []
  {
    if events != [] {
      EventsForAppend(Fanout(hs, events[0]), Broadcast(hs, events[1..]), h);
      EventsForFanout(hs, events[0], h);
      EventsForBroadcast(hs, events[1..], h);
      assert events == [events[0]] + events[1..];
    }
  }

  /**
   * The shared-client path: two interview sessions registered on one client both receive
   * every event of a frame, whichever session the frame was meant for.
   */
  lemma SharedClientBroadcast(c: ClientState, decoded: Option<Json>, a: string, b: string)
    requires Inv(c) && a in c.handlers && b in c.handlers && a != b
    ensures var r := OnMessageSpec(c, decoded);
            EventsFor(r.notified, a) == EventsFor(c.notified, a) + FrameEvents(decoded) &&
            EventsFor(r.notified, b) == EventsFor(c.notified, b) + FrameEvents(decoded)
  {
    EventsForAppend(c.notified, Broadcast(c.handlers, FrameEvents(decoded)), a);
    EventsForAppend(c.notified, Broadcast(c.handlers, FrameEvents(decoded)), b);
    EventsForBroadcast(c.handlers, FrameEvents(decoded), a);
    EventsForBroadcast(c.handlers, FrameEvents(decoded), b);
  }

  /** onClose: the flag drops and every registered handler gets one onDisconnect. */
  lemma OnCloseNotifiesEachOnce(c: ClientState, h: string)
    requires Inv(c)
    ensures var r := OnCloseSpec(c);
            !r.isConnected && r.readyState == Closed && r.handlers == c.handlers && r.wire == c.wire &&
            EventsFor(r.notified, h) == EventsFor(c.notified, h) + (if h in c.handlers then [Disconnect] else [])
  {
    EventsForAppend(c.notified, Broadcast(c.handlers, [Disconnect]), h);
    EventsForBroadcast(c.handlers, [Disconnect], h);
  }

  // ----- the invariant is kept by every transition

  lemma TransmitKeepsInv(c: ClientState, frame: Json)
    requires Inv(c)
    ensures Inv(Transmit(c, frame))
  {
    var w := c.wire + [Sent(frame)];
    assert w[..|w| - 1] == c.wire;
  }

  lemma TransmitSetupKeepsInv(c: ClientState, setup: Json)
    requires Distinct(c.handlers) && SetupFirst(c.wire) && IsSetupFrame(setup)
    ensures var r := Transmit(c, setup); Inv(r) || r.readyState != Open
    ensures Transmit(c, setup).readyState == c.readyState
    ensures c.readyState == Open ==> Inv(Transmit(c, setup))
  {
    var w := c.wire + [Sent(setup)];
    assert w[..|w| - 1] == c.wire;
  }

  lemma CloseKeepsInv(c: ClientState, outcome: CloseOutcome)
    requires Inv(c)
    ensures Inv(CloseSpec(c, outcome))
    ensures CloseSpec(c, outcome).wire == c.wire && CloseSpec(c, outcome).handlers == c.handlers
  {
  }

  lemma ClosedOnceKeepsInv(before: ClientState, after: ClientState)
    requires Inv(before) && ClosedOnce(before, after)
    ensures Inv(after) && after.closeRequests == before.closeRequests + 1
  {
    CloseKeepsInv(before, CloseCompleted);
    CloseKeepsInv(before, CloseInterrupted);
  }

  lemma ConnectAndSetupKeepsInv(c: ClientState, setup: Json, sid: string, outcome: ConnectOutcome)
    requires Inv(c) && IsSetupFrame(setup)
    ensures Inv(ConnectAndSetup(c, setup, sid, outcome).state)
  {
    if c.isConnected && c.readyState == Open {
      TransmitSetupKeepsInv(c, setup);
    } else if c.readyState == Closed || Reusable(c) {
      match outcome
      case ConnectInterrupted =>
      case Connected =>
        var o := OpenedSpec(c);
        assert o.wire[..|o.wire| - 1] == c.wire;
        TransmitSetupKeepsInv(o, setup);
      case ConnectFailed =>
        var e := OnErrorSpec(c.(connectCalled := true));
        OtherTransitionsKeepInv(e, None, [], None);
    }
  }

  lemma SetupSessionKeepsInv(c: ClientState, setup: Json, sid: string,
                             closeOutcome: CloseOutcome, connectOutcome: ConnectOutcome)
    requires Inv(c) && IsSetupFrame(setup)
    ensures Inv(SetupSessionSpec(c, setup, sid, closeOutcome, connectOutcome).state)
  {
    RegisterMembers(c.handlers, sid);
    CloseKeepsInv(c.(handlers := Register(c.handlers, sid)), closeOutcome);
    ConnectAndSetupKeepsInv(ClearStale(c, sid, closeOutcome), setup, sid, connectOutcome);
  }

  lemma RemoveSessionKeepsInv(c: ClientState, sid: string, closeOutcome: CloseOutcome)
    requires Inv(c)
    ensures Inv(RemoveSessionSpec(c, sid, closeOutcome))
  {
    UnregisterMembers(c.handlers, sid);
  }

  lemma OtherTransitionsKeepInv(c: ClientState, decoded: Option<Json>, chunks: seq<Messages.MediaChunk>,
                                text: Option<string>)
    requires Inv(c)
    ensures Inv(OnCloseSpec(c)) && Inv(OnErrorSpec(c)) && Inv(OnMessageSpec(c, decoded))
    ensures Inv(RealtimeSpec(c, chunks)) && Inv(TextSpec(c, text))
  {
    TransmitKeepsInv(c, RealtimeFrame(chunks));
    TransmitKeepsInv(c, TextFrame(text));
  }

  // ----- what setupSession and removeSession promise

  /** The handler is always registered, and no other registration changes, even when the call throws. */
  lemma SetupSessionRegisters(c: ClientState, setup: Json, sid: string,
                              closeOutcome: CloseOutcome, connectOutcome: ConnectOutcome)
    ensures var r := SetupSessionSpec(c, setup, sid, closeOutcome, connectOutcome).state;
            r.handlers == Register(c.handlers, sid) && sid in r.handlers
  {
  }

  /**
   * The setup frame goes out at most once per call, possibly after a new epoch opened, and it
   * goes out exactly when the call ends with the flag set on an open socket.
   */
  lemma SetupSentOnceWhenConnected(c: ClientState, setup: Json, sid: string,
                                   closeOutcome: CloseOutcome, connectOutcome: ConnectOutcome)
    ensures var r := SetupSessionSpec(c, setup, sid, closeOutcome, connectOutcome).state;
            (r.wire == c.wire || r.wire == c.wire + [Sent(setup)] || r.wire == c.wire + [Opened, Sent(setup)]) &&
            (r.wire != c.wire <==> r.isConnected && r.readyState == Open)
  {
  }

  /**
   * A fresh connect that fails runs onClose, so every registered handler hears onDisconnect
   * once, and then the new handler hears it a second time; nothing is sent.
   */
  lemma FailedConnectNotifiesHandler(c: ClientState, setup: Json, sid: string, closeOutcome: CloseOutcome, h: string)
    requires Inv(c) && Reusable(c)
    ensures var r := SetupSessionSpec(c, setup, sid, closeOutcome, ConnectFailed);
            !r.threw && r.state.wire == c.wire && r.state.readyState == Closed && !r.state.isConnected &&
            EventsFor(r.state.notified, h) ==
              EventsFor(c.notified, h) +
              (if h == sid then [Disconnect, Disconnect] else if h in c.handlers then [Disconnect] else [])
  {
    RegisterMembers(c.handlers, sid);
    var hs := Register(c.handlers, sid);
    var fan := Broadcast(hs, [Disconnect]);
    EventsForAppend(c.notified, fan, h);
    EventsForAppend(c.notified + fan, [Notify(sid, Disconnect)], h);
    EventsForBroadcast(hs, [Disconnect], h);
  }

  /** A failed reconnect of a closed socket runs onClose: every handler, the new one included, hears onDisconnect once. */
  lemma FailedReconnectNotifiesAll(c: ClientState, setup: Json, sid: string, closeOutcome: CloseOutcome, h: string)
    requires Inv(c) && c.readyState == Closed
    ensures var r := SetupSessionSpec(c, setup, sid, closeOutcome, ConnectFailed);
            !r.threw && r.state.wire == c.wire && r.state.readyState == Closed && !r.state.isConnected &&
            EventsFor(r.state.notified, h) ==
              EventsFor(c.notified, h) + (if h == sid || h in c.handlers then [Disconnect] else [])
  {
    RegisterMembers(c.handlers, sid);
    var hs := Register(c.handlers, sid);
    EventsForAppend(c.notified, Broadcast(hs, [Disconnect]), h);
    EventsForBroadcast(hs, [Disconnect], h);
  }

  /** An interrupted connect of a fresh or closed client returns having only registered the handler. */
  lemma InterruptedConnectIsSilent(c: ClientState, setup: Json, sid: string, closeOutcome: CloseOutcome)
    requires Reusable(c) || c.readyState == Closed
    ensures var r := SetupSessionSpec(c, setup, sid, closeOutcome, ConnectInterrupted);
            !r.threw && r.state.(connectCalled := c.connectCalled) == c.(handlers := Register(c.handlers, sid))
  {
  }

  /**
   * `connect()` refuses a client that already started a connection: a closing socket, or one
   * whose earlier connect was interrupted.  The call throws with only the handler registered.
   */
  lemma ReusedClientThrows(c: ClientState, setup: Json, sid: string,
                           closeOutcome: CloseOutcome, connectOutcome: ConnectOutcome)
    requires c.readyState == Closing || (c.readyState == NotYetConnected && c.connectCalled)
    ensures var r := SetupSessionSpec(c, setup, sid, closeOutcome, connectOutcome);
            r.threw && r.state == c.(handlers := Register(c.handlers, sid))
  {
  }

  /**
   * Only a started client throws: a fresh, closed, or connected and open one never does, and
   * a call that throws has sent nothing and told nobody.
   */
  lemma OnlyStartedClientThrows(c: ClientState, setup: Json, sid: string,
                                closeOutcome: CloseOutcome, connectOutcome: ConnectOutcome)
    ensures var r := SetupSessionSpec(c, setup, sid, closeOutcome, connectOutcome);
            (Reusable(c) || c.readyState == Closed || (c.isConnected && c.readyState == Open) ==> !r.threw) &&
            (r.threw ==> r.state.wire == c.wire && r.state.notified == c.notified && r.state.readyState != Closed)
  {
  }

  /**
   * A stale open socket (open, flag cleared) is closed first; when that close is interrupted
   * the socket is left closing, and the connect that follows throws.
   */
  lemma StaleSocketInterruptedClose(c: ClientState, setup: Json, sid: string, connectOutcome: ConnectOutcome)
    requires c.readyState == Open && !c.isConnected
    ensures var r := SetupSessionSpec(c, setup, sid, CloseInterrupted, connectOutcome);
            r.threw && r.state.wire == c.wire && r.state.notified == c.notified &&
            r.state.readyState == Closing && r.state.closeRequests == c.closeRequests + 1
  {
  }

  /**
   * removeSession drops exactly that handler; the socket is closed only when the registry
   * becomes empty while open, and a completed close clears the flag.
   */
  lemma RemoveSessionEffect(c: ClientState, sid: string, closeOutcome: CloseOutcome)
    requires Inv(c)
    ensures var r := RemoveSessionSpec(c, sid, closeOutcome);
            (forall h :: h in r.handlers <==> h in c.handlers && h != sid) &&
            r.wire == c.wire && r.notified == c.notified &&
            (r.closeRequests == c.closeRequests + 1 <==> r.handlers == [] && c.readyState == Open) &&
            (r.closeRequests == c.closeRequests ==> r.readyState == c.readyState && r.isConnected == c.isConnected) &&
            (r.handlers == [] && c.readyState == Open && closeOutcome == CloseCompleted ==>
               !r.isConnected && r.readyState == Closed)
  {
    UnregisterMembers(c.handlers, sid);
    assert Broadcast([], [Disconnect]) == [];
  }

  // ----- what the senders promise

  /**
   * sendRealtimeInput is a no-op while the flag is clear; otherwise, on an open socket, it
   * sends one realtimeInput frame that carries exactly the given chunks.
   */
  lemma RealtimeSendsChunks(c: ClientState, chunks: seq<Messages.MediaChunk>)
    ensures !c.isConnected ==> RealtimeSpec(c, chunks) == c
    ensures c.isConnected && c.readyState == Open ==>
              exists f :: RealtimeSpec(c, chunks).wire == c.wire + [Sent(f)] && RealtimeChunks(f) == Some(chunks)
    ensures RealtimeSpec(c, chunks).notified == c.notified && RealtimeSpec(c, chunks).handlers == c.handlers
  {
    RealtimeRoundTrip(chunks);
  }

  /** sendTextMessage sends one complete user turn with the text whenever the socket is open. */
  lemma TextSendsTurn(c: ClientState, text: Option<string>)
    ensures c.readyState == Open ==>
              exists f :: TextSpec(c, text).wire == c.wire + [Sent(f)] && TurnText(f) == Some(text)
    ensures c.readyState != Open ==> TextSpec(c, text) == c
  {
    TextRoundTrip(text);
  }
}
