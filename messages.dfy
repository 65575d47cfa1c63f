/**
 * The data holders exchanged between the browser, the orchestration layer and the relay:
 * MediaChunk (dto/MediaChunk.java), InterviewMessage (dto/InterviewMessage.java) and
 * SetupMessage (dto/SetupMessage.java).  Every Java reference field that the code can see
 * as null is an Option.
 */
module Messages {
  import opened Wrappers
  import opened Json

  /** A piece of streamed media: a MIME type and base64 text, either of which may be null. */
  datatype MediaChunk = MediaChunk(mimeType: Option<string>, data: Option<string>)

  datatype MessageType = Text | Audio | Video | ScreenShare | Mixed | Control

  /** A STOMP message between the browser and the interview service. */
  datatype InterviewMessage = InterviewMessage(
    msgType: Option<MessageType>,
    sessionId: Option<string>,
    content: Option<string>,
    mediaChunks: Option<seq<MediaChunk>>,
    timestamp: Option<int>)

  /** The wrapper Jackson serialises as `{"setup": {...}}`. */
  datatype SetupMessage = SetupMessage(setup: map<string, Json>) {
    function ToJson(): Json {
      JObj(map["setup" := JObj(setup)])
    }
  }
}
