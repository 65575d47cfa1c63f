/**
 * The outbound frames of the relay (GeminiWebSocketClient: sendRealtimeInput,
 * sendTextMessage, sendSetupMessage), built as nested JSON maps, and read-back functions
 * that recover what each frame carries.
 */
module GeminiWire {
  import opened Wrappers
  import opened Json
  import opened Messages

  const SetupModel := "models/gemini-2.0-flash-exp"
  const FallbackVoice := "Aoede"
  const FallbackInstruction := "You are an AI interviewer conducting a technical interview. Be professional, ask relevant questions based on the candidate's responses, and evaluate their technical skills."
  const ResponseModality := "audio"

  /** `obj.get(key)` on a JSON value, with JNull standing for Java's null result. */
  function At(j: Json, key: string): Json {
    if j.JObj? && key in j.fields then j.fields[key] else JNull
  }

  /** `list.get(i)` on a JSON array, JNull when there is no such element. */
  function Elem(j: Json, i: nat): Json {
    if j.JArr? && i < |j.items| then j.items[i] else JNull
  }

  /** The inner map of the setup frame; an unbound voice or instruction falls back to a fixed one. */
  function SetupBody(voice: Option<string>, instruction: Option<string>): map<string, Json> {
    var prebuilt := JObj(map["voiceName" := JStr(voice.GetOr(FallbackVoice))]);
    var speech := JObj(map["voiceConfig" := JObj(map["prebuiltVoiceConfig" := prebuilt])]);
    var generation := JObj(map["responseModalities" := JStr(ResponseModality), "speechConfig" := speech]);
    var system := JObj(map["parts" := JArr([JObj(map["text" := JStr(instruction.GetOr(FallbackInstruction))])])]);
    var tools := JArr([JObj(map["googleSearch" := JObj(map[])])]);
    map["model" := JStr(SetupModel), "generationConfig" := generation,
        "systemInstruction" := system, "tools" := tools]
  }

  function SetupFrame(voice: Option<string>, instruction: Option<string>): Json {
    SetupMessage(SetupBody(voice, instruction)).ToJson()
  }

  /** A text turn: one "user" turn holding one text part, marked complete. */
  function TextFrame(text: Option<string>): Json {
    var part := JObj(map["text" := NullableStr(text)]);
    var turn := JObj(map["role" := JStr("user"), "parts" := JArr([part])]);
    JObj(map["clientContent" := JObj(map["turns" := JArr([turn]), "turnComplete" := JBool(true)])])
  }

  function ChunkJson(c: MediaChunk): Json {
    JObj(map["mimeType" := NullableStr(c.mimeType), "data" := NullableStr(c.data)])
  }

  function ChunkList(chunks: seq<MediaChunk>): (r: seq<Json>)
    ensures |r| == |chunks|
  {
    seq(|chunks|, i requires 0 <= i < |chunks| => ChunkJson(chunks[i]))
  }

  function RealtimeFrame(chunks: seq<MediaChunk>): Json {
    JObj(map["realtimeInput" := JObj(map["mediaChunks" := JArr(ChunkList(chunks))])])
  }

  /** The frame kind the relay cares about: the handshake, or anything else. */
  predicate IsSetupFrame(frame: Json) {
    frame.JObj? && "setup" in frame.fields
  }

  /**
   * The loop of sendRealtimeInput (GeminiWebSocketClient.java:236-245): one map per chunk,
   * appended in input order, then wrapped as `{realtimeInput: {mediaChunks: [...]}}`.
   */
  method BuildRealtimeInput(chunks: seq<MediaChunk>) returns (frame: Json)
    ensures frame == RealtimeFrame(chunks)
    ensures RealtimeChunks(frame) == Some(chunks)
  {
    var items: seq<Json> := [];
    for i := 0 to |chunks|
      invariant |items| == i
      invariant forall k :: 0 <= k < i ==> items[k] == ChunkJson(chunks[k])
    {
      items := items + [ChunkJson(chunks[i])];
    }
    frame := JObj(map["realtimeInput" := JObj(map["mediaChunks" := JArr(items)])]);
    assert items == ChunkList(chunks);
    RealtimeRoundTrip(chunks);
  }

  // Read-back: what a receiver of each frame finds in it.

  function DecodeChunk(j: Json): Option<MediaChunk> {
    if j.JObj? && "mimeType" in j.fields && "data" in j.fields then
      var m := StringField(j.fields, "mimeType");
      var d := StringField(j.fields, "data");
      if m.NotAString? || d.NotAString? then None else Some(MediaChunk(m.ToOption(), d.ToOption()))
    else None
  }

  function DecodeChunks(items: seq<Json>): Option<seq<MediaChunk>> {
    if items == [] then Some([])
    else
      match (DecodeChunk(items[0]), DecodeChunks(items[1..]))
      case (Some(c), Some(rest)) => Some([c] + rest)
      case _ => None
  }

  /** The media chunks a realtimeInput frame delivers, in wire order. */
  function RealtimeChunks(frame: Json): Option<seq<MediaChunk>> {
    var list := At(At(frame, "realtimeInput"), "mediaChunks");
    if list.JArr? then DecodeChunks(list.items) else None
  }

  lemma {:induction false} DecodeChunkList(chunks: seq<MediaChunk>)
    ensures DecodeChunks(ChunkList(chunks)) == Some(chunks)
  {
    if chunks != [] {
      var c := chunks[0];
      StringFieldOfNullable(ChunkJson(c).fields, "mimeType", c.mimeType);
      StringFieldOfNullable(ChunkJson(c).fields, "data", c.data);
      assert ChunkList(chunks)[1..] == ChunkList(chunks[1..]);
      DecodeChunkList(chunks[1..]);
      assert [c] + chunks[1..] == chunks;
    }
  }

  /** A realtimeInput frame hands over exactly its chunks: same count, order, types and data. */
  lemma RealtimeRoundTrip(chunks: seq<MediaChunk>)
    ensures RealtimeChunks(RealtimeFrame(chunks)) == Some(chunks)
    ensures !IsSetupFrame(RealtimeFrame(chunks))
  {
    DecodeChunkList(chunks);
  }

  /** The text of the single part of the single turn of a clientContent frame. */
  function TurnText(frame: Json): Option<Option<string>> {
    var content := At(frame, "clientContent");
    var turns := At(content, "turns");
    var turn := Elem(turns, 0);
    var parts := At(turn, "parts");
    var part := Elem(parts, 0);
    if turns.JArr? && |turns.items| == 1 && At(turn, "role") == JStr("user")
       && parts.JArr? && |parts.items| == 1 && part.JObj? && "text" in part.fields
       && At(content, "turnComplete") == JBool(true)
       && !StringField(part.fields, "text").NotAString?
    then Some(StringField(part.fields, "text").ToOption())
    else None
  }

  /** A text frame is one complete "user" turn whose one part carries exactly the given text. */
  lemma TextRoundTrip(text: Option<string>)
    ensures TurnText(TextFrame(text)) == Some(text)
    ensures !IsSetupFrame(TextFrame(text))
  {
    var part := JObj(map["text" := NullableStr(text)]);
    StringFieldOfNullable(part.fields, "text", text);
  }

  /** The voice, instruction, model, modality and tools a setup frame announces. */
  function SetupVoice(frame: Json): Json {
    At(At(At(At(At(At(frame, "setup"), "generationConfig"), "speechConfig"), "voiceConfig"), "prebuiltVoiceConfig"), "voiceName")
  }

  function SetupInstruction(frame: Json): Json {
    At(Elem(At(At(At(frame, "setup"), "systemInstruction"), "parts"), 0), "text")
  }

  lemma SetupFrameContents(voice: Option<string>, instruction: Option<string>)
    ensures IsSetupFrame(SetupFrame(voice, instruction))
    ensures SetupVoice(SetupFrame(voice, instruction)) == JStr(if voice.Some? then voice.value else FallbackVoice)
    ensures SetupInstruction(SetupFrame(voice, instruction))
            == JStr(if instruction.Some? then instruction.value else FallbackInstruction)
    ensures At(At(SetupFrame(voice, instruction), "setup"), "model") == JStr("models/gemini-2.0-flash-exp")
    ensures At(At(At(SetupFrame(voice, instruction), "setup"), "generationConfig"), "responseModalities") == JStr("audio")
    ensures At(At(SetupFrame(voice, instruction), "setup"), "tools") == JArr([JObj(map["googleSearch" := JObj(map[])])])
  {
  }
}
