/**
 * MediaController.streamMedia: a REST payload's `mediaChunks` list is forwarded to the relay
 * one chunk at a time.  A missing or ill-typed list or chunk throws inside the handler; the
 * catch turns that into an error response, and the chunks forwarded before it stay forwarded.
 */
module Media {
  import opened Wrappers
  import opened Json
  import opened Messages
  import opened GeminiSession
  import opened GeminiClient
  import opened Interview

  /** The two exceptions the loop can raise on a JSON payload. */
  datatype Fault = NullPointerException | ClassCastException

  datatype StreamResponse = StatusSuccess | StatusError(cause: Fault)

  /** `(List<Map<String, String>>) payload.get("mediaChunks")`, as far as a for-each needs it. */
  function ChunkItems(payload: map<string, Json>): Result<seq<Json>, Fault> {
    if "mediaChunks" !in payload then Failure(NullPointerException)
    else match payload["mediaChunks"]
      case JNull => Failure(NullPointerException)
      case JArr(items) => Success(items)
      case _ => Failure(ClassCastException)
  }

  /** One element of the list, read through the setters of a new MediaChunk. */
  function ChunkOf(j: Json): Result<MediaChunk, Fault> {
    match j
    case JNull => Failure(NullPointerException)
    case JObj(f) =>
      var m := StringField(f, "mimeType");
      var d := StringField(f, "data");
      if m.NotAString? || d.NotAString? then Failure(ClassCastException) else Success(MediaChunk(m.ToOption(), d.ToOption()))
    case _ => Failure(ClassCastException)
  }

  /** The chunks forwarded before the first element that throws, in payload order. */
  function Forwarded(items: seq<Json>): seq<MediaChunk> {
    if items == [] then []
    else match ChunkOf(items[0])
      case Success(c) => [c] + Forwarded(items[1..])
      case Failure(_) => []
  }

  /** The exception of the first element that throws, if one does. */
  function FirstFault(items: seq<Json>): Option<Fault> {
    if items == [] then None
    else match ChunkOf(items[0])
      case Success(_) => FirstFault(items[1..])
      case Failure(e) => Some(e)
  }

  /** The response streamMedia returns for a payload. */
  function StreamResult(payload: map<string, Json>): StreamResponse {
    match ChunkItems(payload)
    case Failure(e) => StatusError(e)
    case Success(items) =>
      match FirstFault(items)
      case None => StatusSuccess
      case Some(e) => StatusError(e)
  }

  /** The chunks streamMedia forwards for a payload. */
  function PayloadForwarded(payload: map<string, Json>): seq<MediaChunk> {
    match ChunkItems(payload)
    case Failure(_) => []
    case Success(items) => Forwarded(items)
  }

  /** One sendMediaToGemini call per chunk, each with a one-element list. */
  function SingletonCalls(sid: string, chunks: seq<MediaChunk>): (r: seq<ClientCall>)
    ensures |r| == |chunks|
  {
    seq(|chunks|, i requires 0 <= i < |chunks| => SendRealtimeCall(sid, [chunks[i]]))
  }

  /** The relay state after forwarding each chunk on its own, in order. */
  function ForwardAll(c: ClientState, chunks: seq<MediaChunk>): ClientState {
    if chunks == [] then c else RealtimeSpec(ForwardAll(c, chunks[..|chunks| - 1]), [chunks[|chunks| - 1]])
  }

  lemma {:induction false} ForwardedAppend(a: seq<Json>, b: seq<Json>)
    requires forall i :: 0 <= i < |a| ==> ChunkOf(a[i]).Success?
    ensures Forwarded(a + b) == Forwarded(a) + Forwarded(b)
    ensures FirstFault(a + b) == FirstFault(b)
  {
    if a == [] {
      assert a + b == b;
    } else {
      var c := ChunkOf(a[0]);
      assert (a + b)[0] == a[0] && (a + b)[1..] == a[1..] + b;
      assert c.Success? by { assert ChunkOf(a[0]).Success?; }
      ForwardedAppend(a[1..], b);
      assert Forwarded(a + b) == [c.value] + Forwarded(a[1..] + b);
      assert Forwarded(a) == [c.value] + Forwarded(a[1..]);
    }
  }

  /**
   * With no element throwing, every element is forwarded, and the k-th forwarded chunk carries
   * exactly the "mimeType" and "data" values of the k-th map.
   */
  lemma {:induction false} ForwardedExactly(items: seq<Json>)
    requires FirstFault(items) == None
    ensures |Forwarded(items)| == |items|
    ensures forall k :: 0 <= k < |items| ==> ChunkOf(items[k]) == Success(Forwarded(items)[k])
  {
    if items != [] {
      ForwardedExactly(items[1..]);
      var f := Forwarded(items);
      forall k | 0 <= k < |items| ensures ChunkOf(items[k]) == Success(f[k]) {
        if k > 0 { assert items[k] == items[1..][k - 1]; }
      }
    }
  }

  /** Each success is a chunk map whose "mimeType" and "data" fields (absent counts as null) were copied. */
  lemma ChunkOfCopies(f: map<string, Json>, m: Option<string>, d: Option<string>)
    requires ChunkOf(JObj(f)) == Success(MediaChunk(m, d))
    ensures m.Some? <==> "mimeType" in f && f["mimeType"].JStr?
    ensures m.Some? ==> f["mimeType"] == JStr(m.value)
    ensures d.Some? <==> "data" in f && f["data"].JStr?
    ensures d.Some? ==> f["data"] == JStr(d.value)
  {
  }

  /** A success response means every listed chunk went out; an error names the exception. */
  lemma StreamResultMeans(payload: map<string, Json>)
    ensures StreamResult(payload) == StatusSuccess <==>
              ChunkItems(payload).Success? && FirstFault(ChunkItems(payload).value) == None
    ensures StreamResult(payload) == StatusSuccess ==>
              |PayloadForwarded(payload)| == |payload["mediaChunks"].items|
    ensures ("mediaChunks" !in payload || payload["mediaChunks"] == JNull) ==>
              StreamResult(payload) == StatusError(NullPointerException) && PayloadForwarded(payload) == []
  {
    if StreamResult(payload) == StatusSuccess {
      ForwardedExactly(ChunkItems(payload).value);
    }
  }

  lemma ForwardedStep(items: seq<Json>, i: nat, c: MediaChunk)
    requires i < |items| && ChunkOf(items[i]) == Success(c)
    requires forall k :: 0 <= k < i ==> ChunkOf(items[k]).Success?
    ensures Forwarded(items[..i + 1]) == Forwarded(items[..i]) + [c]
  {
    ForwardedAppend(items[..i], [items[i]]);
    assert items[..i + 1] == items[..i] + [items[i]];
    assert [items[i]][1..] == [];
  }

  lemma ForwardedStop(items: seq<Json>, i: nat, e: Fault)
    requires i < |items| && ChunkOf(items[i]) == Failure(e)
    requires forall k :: 0 <= k < i ==> ChunkOf(items[k]).Success?
    ensures Forwarded(items) == Forwarded(items[..i]) && FirstFault(items) == Some(e)
  {
    ForwardedAppend(items[..i], items[i..]);
    assert items[..i] + items[i..] == items;
    assert items[i..][0] == items[i];
    assert Forwarded(items[..i]) + [] == Forwarded(items[..i]);
  }

  lemma ForwardedDone(items: seq<Json>)
    requires forall k :: 0 <= k < |items| ==> ChunkOf(items[k]).Success?
    ensures Forwarded(items[..|items|]) == Forwarded(items) && FirstFault(items) == None
  {
    assert items[..|items|] == items;
    ForwardedAppend(items, []);
    assert items + [] == items;
  }

  lemma CallsStep(sid: string, c: ClientState, before: seq<MediaChunk>, chunk: MediaChunk)
    ensures SingletonCalls(sid, before + [chunk]) == SingletonCalls(sid, before) + [SendRealtimeCall(sid, [chunk])]
    ensures ForwardAll(c, before + [chunk]) == RealtimeSpec(ForwardAll(c, before), [chunk])
  {
    assert (before + [chunk])[..|before + [chunk]| - 1] == before;
  }

  class Controller {
    const service: Service

    constructor (service: Service)
      ensures this.service == service
    {
      this.service := service;
    }

    /** streamMedia: one sendMediaToGemini per chunk until one throws; then the response. */
    method StreamMedia(sid: string, payload: map<string, Json>) returns (resp: StreamResponse)
      requires service.Valid()
      modifies service, service.client
      ensures service.Valid() && service.activeSessions == old(service.activeSessions)
      ensures resp == StreamResult(payload)
      ensures service.calls == old(service.calls) + SingletonCalls(sid, PayloadForwarded(payload))
      ensures service.client.State() == ForwardAll(old(service.client.State()), PayloadForwarded(payload))
    {
      var list := ChunkItems(payload);
      if list.Failure? {
        assert SingletonCalls(sid, []) == [];
        return StatusError(list.error);
      }
      var fault := ForwardItems(sid, list.value);
      resp := if fault.None? then StatusSuccess else StatusError(fault.value);
    }

    /** One iteration: the chunk goes to sendMediaToGemini as a one-element list. */
    method ForwardOne(sid: string, chunk: MediaChunk, ghost c0: ClientState, ghost calls0: seq<ClientCall>,
                      ghost before: seq<MediaChunk>)
      requires service.Valid()
      requires service.calls == calls0 + SingletonCalls(sid, before)
      requires service.client.State() == ForwardAll(c0, before)
      modifies service, service.client
      ensures service.Valid() && service.activeSessions == old(service.activeSessions)
      ensures service.calls == calls0 + SingletonCalls(sid, before + [chunk])
      ensures service.client.State() == ForwardAll(c0, before + [chunk])
    {
      CallsStep(sid, c0, before, chunk);
      service.SendMediaToGemini(sid, [chunk]);
    }

    /** The for-each of streamMedia over an already extracted list. */
    method ForwardItems(sid: string, items: seq<Json>) returns (fault: Option<Fault>)
      requires service.Valid()
      modifies service, service.client
      ensures service.Valid() && service.activeSessions == old(service.activeSessions)
      ensures fault == FirstFault(items)
      ensures service.calls == old(service.calls) + SingletonCalls(sid, Forwarded(items))
      ensures service.client.State() == ForwardAll(old(service.client.State()), Forwarded(items))
    {
      ghost var c0 := service.client.State();
      ghost var calls0 := service.calls;
      for i := 0 to |items|
        invariant forall k :: 0 <= k < i ==> ChunkOf(items[k]).Success?
        invariant service.Valid() && service.activeSessions == old(service.activeSessions)
        invariant service.calls == calls0 + SingletonCalls(sid, Forwarded(items[..i]))
        invariant service.client.State() == ForwardAll(c0, Forwarded(items[..i]))
      {
        var next := ChunkOf(items[i]);
        if next.Failure? {
          ForwardedStop(items, i, next.error);
          return Some(next.error);
        }
        var chunk := MediaChunk(next.value.mimeType, next.value.data);
        ForwardedStep(items, i, chunk);
        ForwardOne(sid, chunk, c0, calls0, Forwarded(items[..i]));
      }
      ForwardedDone(items);
      fault := None;
    }
  }
}
