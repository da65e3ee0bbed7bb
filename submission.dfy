/** What both pages do around the upload: the form they post and how they
    turn the outcome of the request into either an error message or the
    payload to keep. The two pages run the same code here; they differ only
    in what they do with a successful payload (see the page modules). */
module Submission {
  import opened Optional
  import opened Text
  import opened JsonValue

  /** The fixed application identifier sent with every upload. */
  const IdApp := "upsivale.mx"
  const JsonMediaType := "application/json"
  /** Shown for a failed response whose body is not a string. */
  const ServerErrorMessage := "Ocurrió un error al procesar la imagen."
  /** Shown when the captured frame could not be turned into a file. */
  const PrepareFailedMessage := "No pudimos preparar la imagen para enviarla."
  /** Shown when the request or the reading of its body throws. */
  const NetworkErrorMessage := "No pudimos enviar la imagen. Inténtalo nuevamente."

  /** The picture to upload. Its bytes are never inspected here. */
  datatype File = File(name: string, mediaType: string, size: nat)

  /** The multipart form: the `email`, `idApp` and `file` parts, the last
      one with the name it is uploaded under. */
  datatype Request = Request(email: string, idApp: string, file: File, fileName: string)

  /** The form for `email` and `file`; a file without a name is uploaded
      under `defaultName`. */
  function BuildRequest(email: string, file: File, defaultName: string): (r: Request)
    ensures r.email == email && r.idApp == IdApp && r.file == file
    ensures r.fileName == if file.name != "" then file.name else defaultName
    ensures defaultName != "" ==> r.fileName != ""
  {
    Request(email, IdApp, file, if file.name != "" then file.name else defaultName)
  }

  /** A response as the pages see it: the `ok` flag, the `content-type`
      header if any, the body read as text, and what reading the body as
      JSON gives (None when that throws because the body is not JSON). */
  datatype HttpResponse = HttpResponse(
    ok: bool,
    contentType: Option<string>,
    bodyText: string,
    bodyJson: Option<Json>)

  /** How the request ends: it throws, or a response arrives. */
  datatype FetchOutcome = NetworkFailure | Received(response: HttpResponse)

  /** What the page keeps: an error message, or the payload. */
  datatype SendResult = Failed(message: string) | Succeeded(payload: Json)

  /** The header says JSON: it contains "application/json". */
  predicate DeclaresJson(contentType: Option<string>) {
    contentType.Some? && Contains(contentType.value, JsonMediaType)
  }

  /** The body as JSON when the header says so, otherwise as a string;
      None when reading it throws. */
  function ReadPayload(r: HttpResponse): Option<Json> {
    if DeclaresJson(r.contentType) then r.bodyJson else Some(JString(r.bodyText))
  }

  /** The message for a failed response: a string payload verbatim, any
      other payload the fixed message. */
  function ErrorMessage(payload: Json): string {
    if payload.JString? then payload.s else ServerErrorMessage
  }

  /** The body of the `try` in both send handlers, after the request is
      issued: read the payload, then look at `ok`. */
  function Classify(outcome: FetchOutcome): (r: SendResult)
    // Only an ok response whose body could be read is kept.
    ensures r.Succeeded? <==>
      outcome.Received? && outcome.response.ok && ReadPayload(outcome.response).Some?
    // The payload kept is the body: the text, or the decoded JSON.
    ensures r.Succeeded? && !DeclaresJson(outcome.response.contentType) ==>
      r.payload == JString(outcome.response.bodyText)
    ensures r.Succeeded? && DeclaresJson(outcome.response.contentType) ==>
      Some(r.payload) == outcome.response.bodyJson
    // Anything thrown, by the request or by reading the body, gives the
    // generic network message.
    ensures outcome.NetworkFailure? || ReadPayload(outcome.response).None? ==>
      r == Failed(NetworkErrorMessage)
    // A failed response with a text body surfaces that text verbatim.
    ensures (outcome.Received? && !outcome.response.ok
             && !DeclaresJson(outcome.response.contentType)) ==>
      r == Failed(outcome.response.bodyText)
    // A failed response with a JSON body surfaces it only when it is a
    // JSON string; otherwise the fixed server message.
    ensures (outcome.Received? && !outcome.response.ok
             && DeclaresJson(outcome.response.contentType)
             && outcome.response.bodyJson.Some?) ==>
      r == Failed(ErrorMessage(outcome.response.bodyJson.value))
  {
    match outcome
    case NetworkFailure => Failed(NetworkErrorMessage)
    case Received(response) =>
      match ReadPayload(response)
      case None => Failed(NetworkErrorMessage)
      case Some(payload) =>
        if !response.ok then Failed(ErrorMessage(payload)) else Succeeded(payload)
  }

  /** The media type the pages look for is itself a JSON content type. */
  lemma JsonMediaTypeDeclaresJson()
    ensures DeclaresJson(Some(JsonMediaType))
  {
    assert OccursAt(JsonMediaType, JsonMediaType, 0);
  }

  /** An ok response declared as JSON whose body decodes is kept as the
      decoded value. */
  lemma OkJsonIsKept(r: HttpResponse)
    requires r.ok && DeclaresJson(r.contentType) && r.bodyJson.Some?
    ensures Classify(Received(r)) == Succeeded(r.bodyJson.value)
  {
  }

  /** A failed response with an empty text body leaves an empty message,
      which the pages treat as no error at all (they show the message only
      when it is truthy). */
  lemma EmptyTextBodyGivesEmptyMessage(r: HttpResponse)
    requires !r.ok && !DeclaresJson(r.contentType) && r.bodyText == ""
    ensures Classify(Received(r)) == Failed("")
  {
  }

  /** The content-type test accepts a JSON media type with parameters. */
  lemma JsonWithCharset()
    ensures DeclaresJson(Some("application/json; charset=utf-8"))
    ensures !DeclaresJson(Some("text/plain")) && !DeclaresJson(None)
  {
    assert OccursAt("application/json; charset=utf-8", JsonMediaType, 0);
    var t := "text/plain";
    assert forall i: nat :: !OccursAt(t, JsonMediaType, i);
  }
}
