/**
 * Inbound dispatch of the relay (GeminiWebSocketClient: onMessage, handleSetupComplete,
 * handleServerContent, handleToolCall): the handler notifications one decoded frame produces,
 * and their fan-out over the handler registry.
 *
 * A ClassCastException or NullPointerException inside handleServerContent is caught in
 * onMessage: the notifications already delivered stay delivered and the rest of the frame is
 * dropped.  The functions below return exactly the notifications delivered before that point.
 */
module GeminiDispatch {
  import opened Wrappers
  import opened Json
  import Text

  /** The six SessionHandler callbacks, as values. */
  datatype HandlerEvent =
    | SetupComplete
    | AudioData(mimeType: string, data: Option<string>)
    | TextResponse(text: Option<string>)
    | TurnComplete
    | Interrupted
    | Disconnect

  /** One handler call: the handler registered under `handler` received `event`. */
  datatype Notification = Notify(handler: string, event: HandlerEvent)

  /** What one element of `modelTurn.parts` does: deliver one event, deliver nothing, or throw. */
  datatype PartOutcome = Emit(event: HandlerEvent) | Skip | Abort

  const AudioPrefix := "audio/pcm"

  function PartOutcomeOf(part: Json): PartOutcome {
    match part
    case JObj(f) =>
      if "inlineData" in f then
        match f["inlineData"]
        case JObj(d) =>
          var mime := StringField(d, "mimeType");
          var data := StringField(d, "data");
          if mime.NotAString? || data.NotAString? then Abort
          else if mime.Str? && Text.StartsWith(mime.s, AudioPrefix) then Emit(AudioData(mime.s, data.ToOption()))
          else Skip
        case _ => Abort
      else if "text" in f then
        var t := StringField(f, "text");
        if t.NotAString? then Abort else Emit(TextResponse(t.ToOption()))
      else Skip
    case _ => Abort
  }

  /** The events of the parts loop, in list order, up to the first part that throws. */
  function PartsEvents(parts: seq<Json>): seq<HandlerEvent> {
    if parts == [] then []
    else
      match PartOutcomeOf(parts[0])
      case Emit(e) => [e] + PartsEvents(parts[1..])
      case Skip => PartsEvents(parts[1..])
      case Abort => []
  }

  function ModelTurnEvents(sc: map<string, Json>): seq<HandlerEvent> {
    if "modelTurn" !in sc then []
    else
      match sc["modelTurn"]
      case JObj(mt) =>
        if "parts" !in mt then []
        else (match mt["parts"]
              case JNull => []
              case JArr(ps) => PartsEvents(ps)
              case _ => [])
      case _ => []
  }

  predicate FlagSet(sc: map<string, Json>, key: string) {
    key in sc && sc[key] == JBool(true)
  }

  function ServerContentEvents(sc: Json): seq<HandlerEvent> {
    match sc
    case JObj(f) =>
      if FlagSet(f, "interrupted") then [Interrupted]
      else (if FlagSet(f, "turnComplete") then [TurnComplete] else []) + ModelTurnEvents(f)
    case _ => []
  }

  /**
   * The events one inbound frame produces, for both the text and the binary overload of
   * onMessage.  `decoded` is None when Jackson cannot parse the payload.
   */
  function FrameEvents(decoded: Option<Json>): seq<HandlerEvent> {
    match decoded
    case Some(JObj(top)) =>
      if "setupComplete" in top then [SetupComplete]
      else if "serverContent" in top then ServerContentEvents(top["serverContent"])
      else []
    case _ => []
  }

  /** `sessionHandlers.values().forEach(h -> h.on...())` for one event. */
  function Fanout(handlers: seq<string>, e: HandlerEvent): (r: seq<Notification>)
    ensures |r| == |handlers|
  {
    seq(|handlers|, i requires 0 <= i < |handlers| => Notify(handlers[i], e))
  }

  /** Every event, in order, to every registered handler, in registry order. */
  function Broadcast(handlers: seq<string>, events: seq<HandlerEvent>): seq<Notification> {
    if events == [] then [] else Fanout(handlers, events[0]) + Broadcast(handlers, events[1..])
  }

  /** The calls one handler sees, in the order it sees them. */
  function EventsFor(trace: seq<Notification>, h: string): seq<HandlerEvent> {
    if trace == [] then []
    else (if trace[0].handler == h then [trace[0].event] else []) + EventsFor(trace[1..], h)
  }

  predicate Distinct(hs: seq<string>) {
    forall i, j :: 0 <= i < j < |hs| ==> hs[i] != hs[j]
  }

  // ----- what one frame delivers

  /** Only the four content callbacks come out of a serverContent; audio always has the PCM prefix. */
  predicate ContentEvent(e: HandlerEvent) {
    match e
    case AudioData(m, _) => Text.StartsWith(m, AudioPrefix)
    case TextResponse(_) => true
    case _ => false
  }

  lemma {:induction false} PartsEventsAreContent(parts: seq<Json>)
    ensures forall e :: e in PartsEvents(parts) ==> ContentEvent(e)
  {
    if parts != [] {
      PartsEventsAreContent(parts[1..]);
    }
  }

  /** Parts are delivered in list order: the events of a list are those of its pieces, joined. */
  lemma {:induction false} PartsEventsAppend(a: seq<Json>, b: seq<Json>)
    requires forall i :: 0 <= i < |a| ==> PartOutcomeOf(a[i]) != Abort
    ensures PartsEvents(a + b) == PartsEvents(a) + PartsEvents(b)
  {
    if a == [] {
      assert a + b == b;
    } else {
      assert (a + b)[0] == a[0] && (a + b)[1..] == a[1..] + b;
      PartsEventsAppend(a[1..], b);
    }
  }

  /** A part that throws drops itself and every later part; earlier deliveries stand. */
  lemma {:induction false} AbortDropsRest(parts: seq<Json>, i: nat)
    requires i < |parts| && PartOutcomeOf(parts[i]) == Abort
    requires forall k :: 0 <= k < i ==> PartOutcomeOf(parts[k]) != Abort
    ensures PartsEvents(parts) == PartsEvents(parts[..i])
  {
    assert parts == parts[..i] + parts[i..];
    PartsEventsAppend(parts[..i], parts[i..]);
    assert parts[i..][0] == parts[i];
    assert PartsEvents(parts[i..]) == [];
    assert PartsEvents(parts[..i]) + [] == PartsEvents(parts[..i]);
  }

  /**
   * One part: inline data is forwarded only with a PCM audio MIME type, text becomes a text
   * response, a part with both keys takes the inline-data branch only, and null parts throw.
   */
  lemma PartOutcomeRules(f: map<string, Json>, d: map<string, Json>, text: string)
    ensures PartOutcomeOf(JNull) == Abort
    ensures "inlineData" in f ==> !PartOutcomeOf(JObj(f)).Emit? || PartOutcomeOf(JObj(f)).event.AudioData?
    ensures PartOutcomeOf(JObj(map["text" := JStr(text)])) == Emit(TextResponse(Some(text)))
    ensures PartOutcomeOf(JObj(map["inlineData" := JObj(d), "text" := JStr(text)])) == PartOutcomeOf(JObj(map["inlineData" := JObj(d)]))
    ensures forall m, x :: PartOutcomeOf(JObj(f)) == Emit(AudioData(m, x)) ==>
              AudioPrefix <= m && "inlineData" in f && f["inlineData"].JObj? &&
              StringField(f["inlineData"].fields, "mimeType") == Str(m)
  {
  }

  /**
   * Top-level dispatch: setupComplete wins over serverContent, which wins over toolCall;
   * toolCall, unknown keys and undecodable payloads deliver nothing; an interrupted
   * serverContent delivers one onInterrupted and nothing else; turnComplete is delivered
   * first and the model turn's parts still follow.
   */
  lemma FrameEventsRules(top: map<string, Json>, sc: map<string, Json>)
    ensures "setupComplete" in top ==> FrameEvents(Some(JObj(top))) == [SetupComplete]
    ensures "setupComplete" !in top && "serverContent" !in top ==> FrameEvents(Some(JObj(top))) == []
    ensures FrameEvents(None) == []
    ensures FlagSet(sc, "interrupted") ==> ServerContentEvents(JObj(sc)) == [Interrupted]
    ensures !FlagSet(sc, "interrupted") && FlagSet(sc, "turnComplete") ==>
              ServerContentEvents(JObj(sc)) == [TurnComplete] + ModelTurnEvents(sc)
    ensures !FlagSet(sc, "interrupted") && !FlagSet(sc, "turnComplete") ==>
              ServerContentEvents(JObj(sc)) == ModelTurnEvents(sc)
  {
  }

  /** A frame never produces onDisconnect, and onSetupComplete only on its own. */
  lemma FrameEventsShape(decoded: Option<Json>)
    ensures Disconnect !in FrameEvents(decoded)
    ensures SetupComplete in FrameEvents(decoded) ==> FrameEvents(decoded) == [SetupComplete]
    ensures forall e :: e in FrameEvents(decoded) ==>
              e == SetupComplete || e == Interrupted || e == TurnComplete || ContentEvent(e)
  {
    if decoded.Some? && decoded.value.JObj? {
      var top := decoded.value.fields;
      if "setupComplete" !in top && "serverContent" in top && top["serverContent"].JObj? {
        var sc := top["serverContent"].fields;
        if "modelTurn" in sc && sc["modelTurn"].JObj? {
          var mt := sc["modelTurn"].fields;
          if "parts" in mt && mt["parts"].JArr? {
            PartsEventsAreContent(mt["parts"].items);
          }
        }
      }
    }
  }

  lemma {:induction false} BroadcastSnoc(hs: seq<string>, events: seq<HandlerEvent>, e: HandlerEvent)
    ensures Broadcast(hs, events + [e]) == Broadcast(hs, events) + Fanout(hs, e)
  {
    if events == [] {
      assert events + [e] == [e];
      assert Broadcast(hs, [e]) == Fanout(hs, e) + Broadcast(hs, []);
    } else {
      assert (events + [e])[1..] == events[1..] + [e];
      BroadcastSnoc(hs, events[1..], e);
    }
  }
}
