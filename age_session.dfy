/** The age-estimation page as a state machine: the page's state fields
    and one method per event handler. Everything the browser or the
    network decides (the camera outcome, the video's readiness, the
    captured frame, the built file, the response) comes in as a parameter.
    Sending is split at its `await`: `HandleSendRequest` runs up to issuing
    the request and returns it, `ReceiveResponse` runs the rest once the
    request has settled. */
module AgeEstimation {
  import opened Optional
  import opened Text
  import opened JsonValue
  import opened EmailGate
  import opened Submission
  import Camera
  import AgeResult

  const NoPhotoMessage := "Primero toma una foto."
  /** The name a file without one is uploaded under. */
  const DefaultFileName := "foto-rostro.jpg"
  const LoadingText := "Activando tu cámara frontal..."

  class AgeEstimationPage {
    var status: Camera.Status
    var cameraError: Option<string>
    /** The captured frame as a data URL. */
    var captureUrl: Option<string>
    var showPreview: bool
    var emailModalOpen: bool
    var email: string
    var emailError: Option<string>
    var selectedFile: Option<File>
    var isSending: bool
    /** The payload kept from a successful response; `JNull` when none. */
    var responseData: Json
    var responseError: Option<string>

    /** The e-mail dialog closes only on an address of the required shape,
        and the address can only be edited while the dialog is open; so
        while it is closed the address has that shape and no e-mail error
        is shown. The shape is stated with the pattern's scanner on the
        address as typed, which agrees with the pattern on the trimmed
        address (`TestIsEmailShape`, `TrimKeepsShape`). */
    predicate Valid()
      reads this`emailModalOpen, this`email, this`emailError
    {
      !emailModalOpen ==> Test(email) && emailError == None
    }

    /** The page as first rendered: the camera is starting, the e-mail
        dialog is open and nothing has been captured or sent. */
    constructor()
      ensures Valid()
      ensures status == Camera.Loading && cameraError == None
      ensures captureUrl == None && !showPreview
      ensures emailModalOpen && email == "" && emailError == None
      ensures selectedFile == None && !isSending
      ensures responseData == JNull && responseError == None
    {
      status := Camera.Loading;
      cameraError := None;
      captureUrl := None;
      showPreview := false;
      emailModalOpen := true;
      email := "";
      emailError := None;
      selectedFile := None;
      isSending := false;
      responseData := JNull;
      responseError := None;
    }

    /** Starting the camera has settled. */
    method CameraSettled(outcome: Camera.Outcome)
      modifies this`status, this`cameraError
      ensures (status, cameraError) == Camera.Settle(outcome, old(cameraError))
      ensures status == Camera.Ready <==> outcome == Camera.Granted
    {
      var (s, e) := Camera.Settle(outcome, cameraError);
      status := s;
      cameraError := e;
    }

    /** The text over the camera circle, shown while the camera is not
        ready. */
    function Overlay(): (m: Option<string>)
      reads this
      ensures m.None? <==> status == Camera.Ready
      ensures status == Camera.Loading ==> m == Some(LoadingText)
      ensures status == Camera.Error && cameraError.Some? && cameraError.value != "" ==>
        m == Some(cameraError.value)
    {
      if status == Camera.Ready then None
      else Some(Camera.StatusMessage(status, cameraError, LoadingText))
    }

    /** A tap on the camera circle. It does nothing unless the camera is
        ready, the video and canvas are mounted, the video has a frame
        (`readyState` 2 or more) and a 2D context is available; otherwise
        it keeps `frame` as the capture, clears the previous result and
        opens the preview. The file to upload is built afterwards (see
        `FilePrepared`), so the previous file stays until then. */
    method HandleCapture(videoPresent: bool, canvasPresent: bool, readyState: nat,
                         contextPresent: bool, frame: string)
      returns (captured: bool)
      requires Valid()
      modifies this`captureUrl, this`responseData, this`responseError, this`showPreview
      ensures Valid()
      ensures captured <==>
        status == Camera.Ready && videoPresent && canvasPresent && readyState >= 2
        && contextPresent
      ensures captured ==>
        captureUrl == Some(frame) && responseData == JNull && responseError == None
        && showPreview
      ensures captured ==> (PreviewOpen() <==> frame != "")
      ensures !captured ==>
        captureUrl == old(captureUrl) && responseData == old(responseData)
        && responseError == old(responseError) && showPreview == old(showPreview)
    {
      if status != Camera.Ready {
        return false;
      }
      if !videoPresent || !canvasPresent || readyState < 2 {
        return false;
      }
      if !contextPresent {
        return false;
      }
      captureUrl := Some(frame);
      responseData := JNull;
      responseError := None;
      showPreview := true;
      captured := true;
    }

    /** The file for the last capture has been built (`Some`), or building
        it failed (`None`). */
    method FilePrepared(built: Option<File>)
      requires Valid()
      modifies this`selectedFile, this`responseError
      ensures Valid()
      ensures built.Some? ==> selectedFile == built && responseError == old(responseError)
      ensures built.None? ==>
        selectedFile == old(selectedFile) && responseError == Some(PrepareFailedMessage)
    {
      if built.Some? {
        selectedFile := built;
      } else {
        responseError := Some(PrepareFailedMessage);
      }
    }

    /** Typing in the e-mail field, which exists only inside the dialog. */
    method EditEmail(value: string)
      requires Valid() && emailModalOpen
      modifies this`email, this`emailError
      ensures Valid()
      ensures email == value && emailError == None
    {
      email := value;
      emailError := None;
    }

    /** Submitting the e-mail dialog: a blank address and an address
        without the `x@y.z` shape each keep the dialog open with their
        message; any other address clears the message and closes it. */
    method HandleEmailSubmit()
      requires Valid() && emailModalOpen
      modifies this`emailError, this`emailModalOpen
      ensures Valid()
      ensures AllWs(email) ==> emailError == Some(BlankMessage) && emailModalOpen
      ensures !AllWs(email) && !EmailShape(Trim(email)) ==>
        emailError == Some(MalformedMessage) && emailModalOpen
      ensures EmailShape(Trim(email)) ==> emailError == None && !emailModalOpen
    {
      var verdict := CheckEmail(email);
      TestIsEmailShape(email);
      if verdict == Accepted {
        emailError := None;
        emailModalOpen := false;
      } else {
        emailError := Some(VerdictMessage(verdict));
      }
    }

    /** The first, synchronous part of sending: without a file only the
        photo message is set; without an address the dialog reopens with
        its message; otherwise the previous outcome is cleared, sending
        starts, and the request is returned. */
    method HandleSendRequest() returns (request: Option<Request>)
      requires Valid()
      modifies this`responseError, this`emailError, this`emailModalOpen, this`isSending,
        this`responseData
      ensures Valid()
      ensures old(selectedFile).None? ==>
        request.None? && responseError == Some(NoPhotoMessage)
        && emailError == old(emailError) && emailModalOpen == old(emailModalOpen)
        && isSending == old(isSending) && responseData == old(responseData)
      ensures old(selectedFile).Some? && email == "" ==>
        request.None? && emailError == Some(MissingMessage) && emailModalOpen
        && responseError == old(responseError) && isSending == old(isSending)
        && responseData == old(responseData)
      ensures old(selectedFile).Some? && email != "" ==>
        request == Some(BuildRequest(email, selectedFile.value, DefaultFileName))
        && isSending && responseError == None && responseData == JNull
        && emailError == old(emailError) && emailModalOpen == old(emailModalOpen)
      // With the dialog closed the address on file always has the required
      // shape, so a send with a file never stops for the address.
      ensures old(selectedFile).Some? && !old(emailModalOpen) ==>
        request.Some? && EmailShape(Trim(request.value.email))
    {
      if selectedFile.None? {
        responseError := Some(NoPhotoMessage);
        return None;
      }
      if email == "" {
        emailError := Some(MissingMessage);
        emailModalOpen := true;
        return None;
      }
      TestIsEmailShape(email);
      BlankNeverMatches(email);
      TrimKeepsShape(email);
      isSending := true;
      responseError := None;
      responseData := JNull;
      request := Some(BuildRequest(email, selectedFile.value, DefaultFileName));
    }

    /** The rest of sending, once the request has settled: a success keeps
        the payload and closes the preview; a failure keeps only its
        message. Sending ends on every path. */
    method ReceiveResponse(outcome: FetchOutcome)
      requires Valid()
      modifies this`responseError, this`responseData, this`showPreview, this`isSending
      ensures Valid()
      ensures !isSending
      ensures Classify(outcome).Succeeded? ==>
        responseData == Classify(outcome).payload && !showPreview
        && responseError == old(responseError)
      ensures Classify(outcome).Failed? ==>
        responseError == Some(Classify(outcome).message)
        && responseData == old(responseData) && showPreview == old(showPreview)
    {
      match Classify(outcome) {
        case Failed(message) =>
          responseError := Some(message);
        case Succeeded(payload) =>
          responseData := payload;
          showPreview := false;
      }
      isSending := false;
    }

    /** "Generar nuevamente": back to the camera with nothing captured and
        no result; the address and the dialog stay as they are. */
    method HandleGenerateAgain()
      requires Valid()
      modifies this`showPreview, this`responseData, this`responseError, this`selectedFile,
        this`captureUrl
      ensures Valid()
      ensures !showPreview && responseData == JNull && responseError == None
      ensures selectedFile == None && captureUrl == None
      ensures View() == AgeResult.CaptureView && !PreviewOpen()
    {
      showPreview := false;
      responseData := JNull;
      responseError := None;
      selectedFile := None;
      captureUrl := None;
    }

    /** The "Cerrar" button of the preview. */
    method ClosePreview()
      requires Valid()
      modifies this`showPreview
      ensures Valid()
      ensures !showPreview && !PreviewOpen()
    {
      showPreview := false;
    }

    /** The preview dialog is on screen: it is open and there is a
        capture to show. */
    predicate PreviewOpen()
      reads this
      ensures PreviewOpen() ==> showPreview && captureUrl.Some?
    {
      showPreview && captureUrl.Some? && captureUrl.value != ""
    }

    /** The send button is in the preview while there is no result, and it
        is enabled only with a file and no send under way. */
    predicate SendEnabled()
      reads this
    {
      PreviewOpen() && !Truthy(responseData) && !isSending && selectedFile.Some?
    }

    /** A tap on the enabled send button never stops at the photo check,
        and with the e-mail dialog closed it never stops at the address
        check either: the dialog closes only on a non-blank address. */
    lemma EnabledSendPassesGuards()
      requires Valid() && SendEnabled()
      ensures !emailModalOpen ==> email != ""
    {
      if !emailModalOpen {
        TestIsEmailShape(email);
        BlankNeverMatches(email);
      }
    }

    /** The main area: the capture view while there is no truthy payload,
        the result otherwise. */
    function View(): (v: AgeResult.View)
      reads this
      ensures v == AgeResult.CaptureView <==> !Truthy(responseData)
    {
      AgeResult.Render(responseData)
    }
  }

  /** An ok JSON response holding an object ends sending, keeps the object,
      closes the preview and replaces the capture view. */
  method ReceiveObject(page: AgeEstimationPage, fields: map<string, Json>)
    requires page.Valid()
    modifies page`responseError, page`responseData, page`showPreview, page`isSending
    ensures page.Valid() && !page.isSending && page.responseError == old(page.responseError)
    ensures !page.showPreview
    ensures page.responseData == JObject(fields)
    ensures page.View() != AgeResult.CaptureView && !page.View().RawDump?
  {
    var response := HttpResponse(true, Some(JsonMediaType), "", Some(JObject(fields)));
    JsonMediaTypeDeclaresJson();
    OkJsonIsKept(response);
    page.ReceiveResponse(Received(response));
    assert page.responseData == JObject(fields);
    AgeResult.ObjectIsShown(fields);
  }

  /** Sending with the dialog closed and a file ready never stops at a
      guard: it issues the request for that file with an address of the
      required shape and starts sending, leaving the preview as it was. */
  method SendReady(page: AgeEstimationPage, file: File) returns (request: Option<Request>)
    requires page.Valid() && !page.emailModalOpen && page.selectedFile == Some(file)
    modifies page`responseError, page`emailError, page`emailModalOpen, page`isSending,
      page`responseData
    ensures page.Valid() && page.isSending && page.showPreview == old(page.showPreview)
    ensures request.Some? && request.value.file == file && request.value.idApp == IdApp
    ensures EmailShape(Trim(request.value.email))
    // The address on file is the one sent, and it stays on file with the
    // dialog closed; the previous outcome is cleared.
    ensures request.value.email == page.email
    ensures !page.emailModalOpen && page.emailError == old(page.emailError)
    ensures page.responseData == JNull && page.responseError == None
  {
    TestIsEmailShape(page.email);
    BlankNeverMatches(page.email);
    assert page.email != "";
    request := page.HandleSendRequest();
  }

  /** A whole round: with the address accepted and a file ready, sending
      issues the request; an ok JSON response with an object then replaces
      the capture view with the result card and closes the preview. */
  method SuccessfulRound(page: AgeEstimationPage, file: File, fields: map<string, Json>)
    returns (request: Option<Request>)
    requires page.Valid() && !page.emailModalOpen && page.selectedFile == Some(file)
    modifies page`responseError, page`emailError, page`emailModalOpen, page`isSending,
      page`responseData, page`showPreview
    ensures page.Valid() && !page.isSending && !page.showPreview
    ensures request.Some? && request.value.file == file && request.value.idApp == IdApp
    // The address sent is the one on file, which passes the dialog's check
    // and stays on file with the dialog closed, ready for the next round;
    // no error is left.
    ensures request.value.email == page.email && CheckEmail(page.email) == Accepted
    ensures !page.emailModalOpen && page.responseError == None
    ensures page.responseData == JObject(fields)
    ensures page.View() != AgeResult.CaptureView && !page.View().RawDump?
  {
    request := SendReady(page, file);
    ReceiveObject(page, fields);
  }

  /** The address is asked for once: after a round, the next send with the
      same file goes out at once, with the same address and without
      reopening the dialog. */
  method TwoRounds(page: AgeEstimationPage, file: File, first: map<string, Json>,
                   second: map<string, Json>)
    returns (r1: Option<Request>, r2: Option<Request>)
    requires page.Valid() && !page.emailModalOpen && page.selectedFile == Some(file)
    modifies page`responseError, page`emailError, page`emailModalOpen, page`isSending,
      page`responseData, page`showPreview
    ensures r1.Some? && r2.Some? && r1.value.email == r2.value.email == page.email
    ensures page.email == old(page.email) && !page.emailModalOpen
    ensures page.responseData == JObject(second)
  {
    r1 := SuccessfulRound(page, file, first);
    r2 := SuccessfulRound(page, file, second);
  }
}
