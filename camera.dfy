/** The camera's state as the pages keep it. Acquiring and releasing the
    stream happens in the browser; only its outcome reaches the state. */
module Camera {
  import opened Optional

  datatype Status = Loading | Ready | Error

  /** How starting the camera ended: no camera API at all, the stream was
      granted and playing, or requesting or playing it threw. */
  datatype Outcome = Unsupported | Granted | Denied

  const UnsupportedMessage := "Tu navegador no permite acceso a la cámara."
  const DeniedMessage := "No pudimos acceder a tu cámara. Revisa los permisos de tu dispositivo."
  const PermissionHint := "Activa los permisos de cámara para continuar."

  /** The new status and error text once starting the camera settles; a
      granted stream leaves the error text as it was. */
  function Settle(outcome: Outcome, error: Option<string>): (r: (Status, Option<string>))
    ensures r.0 == Ready <==> outcome == Granted
    ensures r.0 == Error ==> r.1.Some? && r.1.value != ""
    ensures outcome == Granted ==> r.1 == error
    ensures outcome == Unsupported ==> r == (Error, Some(UnsupportedMessage))
    ensures outcome == Denied ==> r == (Error, Some(DeniedMessage))
  {
    match outcome
    case Unsupported => (Error, Some(UnsupportedMessage))
    case Granted => (Ready, error)
    case Denied => (Error, Some(DeniedMessage))
  }

  /** The text laid over the preview while the camera is not ready. */
  function StatusMessage(status: Status, error: Option<string>, loadingText: string): (m: string)
    ensures status == Loading ==> m == loadingText
    ensures status != Loading && error.Some? && error.value != "" ==> m == error.value
  {
    if status == Loading then loadingText
    else if error.Some? && error.value != "" then error.value
    else PermissionHint
  }

  /** Once starting has failed, the overlay explains why. */
  lemma FailureIsExplained(outcome: Outcome, error: Option<string>, loadingText: string)
    requires outcome != Granted
    ensures var (status, e) := Settle(outcome, error);
      StatusMessage(status, e, loadingText) in {UnsupportedMessage, DeniedMessage}
  {
  }
}
