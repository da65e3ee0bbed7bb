# UpSiVale capture-and-submit pages, modelled in Dafny

This model covers the logic of the two interactive pages of the UpSiVale
landing site. In both pages the visitor shares an e-mail address, takes a
photo (or, for food, picks one from the gallery) and sends it to a remote
service.

- **Age estimation** (`AgeEstimationPage`): the service estimates the
  person's age. The page then replaces the camera view with a result card.
- **Food analysis** (`FoodAnalysisPage`): the service returns nutrition
  facts. The page shows them inside the preview, through the
  `NutritionCard` component and its macro donut.

The model has these modules:

- `Optional`, `JsonValue`: values that may be absent, and decoded JSON
  payloads with JavaScript truthiness, property lookup, `||` and `??`.
- `Text`: `String.prototype.trim` over the ECMAScript white-space set,
  `split` on a character, substring search (`includes`) and upper-casing.
- `EmailGate`: the e-mail check. The address is trimmed, and the
  unanchored pattern `/\S+@\S+\.\S+/` must then match somewhere. The
  pattern is given twice: as an existential predicate (`EmailShape`) and as
  a left-to-right scanner (`Test`). The two are proved equal.
- `Submission`: the multipart form both pages post, and how the outcome
  of the request (a thrown error, or a response with its `ok` flag,
  content type and body) becomes an error message or the payload to keep.
- `Camera`: the camera status once starting the camera has settled, and
  the text laid over the camera while it is not ready.
- `AgeResult`: the age page's choice between the capture view, a raw dump
  and the result card. It also covers the card's fields with their
  fallbacks, and the confidence-interval text.
- `FoodResult`: the food page's routing of the payload to the nutrition
  card or to a raw dump.
- `NutritionCard`: clamping of the macros, arc lengths, offsets and
  drawing of the donut segments; also the title, the centre label and the
  macro rows.
- `AgeEstimation`, `FoodAnalysis`: each page as a class. The fields are
  the page's state variables and there is one method per event handler.
  Browser and network outcomes are parameters: the camera outcome, the
  video's readiness, the captured frame, the built or picked file and the
  response. Sending is split at its `await`:
  - `HandleSendRequest` runs the synchronous part and returns the request
    it issues.
  - `ReceiveResponse` runs the rest, including the `finally` that ends
    sending.

  Both classes keep the invariant `Valid()`: while the e-mail dialog is
  closed, the address has the required shape and no e-mail error is set.
  It holds because the dialog starts open, it closes only on an accepted
  address, and the address can be edited only inside the dialog.

Where this model and a plain reading of the pages' intent differ, the
model follows the code:

- The confidence interval is split at every `-`, not only at the first
  one. Only the first two pieces are shown, so `"18-24-30"` is shown as
  `"18 - 24"`.
- The send handlers check only that the address is non-empty; they do not
  check that it was validated. The invariant above is what guarantees a
  validated address whenever the dialog is closed.

## Model

| member | source | states |
|---|---|---|
| Text.TrimSpan | src/app/age-estimation/page.tsx:137 | `trim()` removes exactly a white-space prefix and a white-space suffix; what remains is a contiguous slice of the input |
| Text.Trim | src/app/food-analysis/page.tsx:149 | a trimmed string neither starts nor ends with white space |
| Text.TrimEmptyIffAllWs | src/app/age-estimation/page.tsx:137-142 | the trimmed address is empty exactly when the input is all white space |
| Text.TrimIdempotent | src/app/age-estimation/page.tsx:137 | trimming twice is trimming once |
| Text.TrimClean | src/app/age-estimation/page.tsx:250-251 | trimming a string without white space at either end leaves it unchanged |
| Text.Split | src/app/age-estimation/page.tsx:249 | `split("-")` yields at least one piece and no piece contains the separator |
| Text.JoinSplit | src/app/age-estimation/page.tsx:249 | joining the pieces of a split with the separator gives back the string |
| Text.SplitJoin | src/app/age-estimation/page.tsx:249 | splitting a join of separator-free pieces gives back the pieces |
| Text.SplitNoSep | src/app/age-estimation/page.tsx:249 | a string without the separator splits into itself alone |
| Text.SplitPrefix | src/app/age-estimation/page.tsx:249 | the piece before the first separator comes first, followed by the split of the rest |
| Text.Contains | src/app/age-estimation/page.tsx:190 | `includes` holds exactly when the needle occurs at some index |
| Text.UpperChar | src/components/NutritionCard.tsx:28 | each lower-case letter becomes its own capital, read from the ASCII and Latin-1 capital tables (so a different, non-lower-case character); every other character is left alone |
| Text.Upper | src/components/NutritionCard.tsx:28 | `toUpperCase` keeps the length and maps every character |
| Text.UpperExample | src/components/NutritionCard.tsx:28 | `"manzana ñ"` upper-cases to `"MANZANA Ñ"` |
| Text.UpperIdempotent | src/components/NutritionCard.tsx:28 | an upper-cased name has no lower-case letter left, and upper-casing it again changes nothing |
| EmailGate.EmailShape | src/app/age-estimation/page.tsx:144-145 | the unanchored pattern `\S+@\S+\.\S+` matches somewhere: some non-white-space run, an `@`, a non-white-space run, a `.` and one non-white-space character; `Test` decides it (`TestIsEmailShape`) |
| EmailGate.Test | src/app/age-estimation/page.tsx:144-145 | `emailPattern.test`, as a left-to-right search for an `@` that starts a match; it holds exactly when `EmailShape` does (`TestIsEmailShape`) |
| EmailGate.DotFromSpec | src/app/age-estimation/page.tsx:144-145 | the scanner's domain step finds a non-white-space run ending in `.` with a non-white-space character after it exactly when one exists |
| EmailGate.AtMatchesSpec | src/app/age-estimation/page.tsx:144-145 | an `@` at a given index starts a match exactly when the pattern has a match around it |
| EmailGate.AtFromSpec | src/app/age-estimation/page.tsx:144-145 | searching from an index finds a match exactly when a match has its `@` at or after it |
| EmailGate.TestIsEmailShape | src/app/age-estimation/page.tsx:144-145 | the scanner accepts exactly the strings where `/\S+@\S+\.\S+/` matches somewhere |
| EmailGate.MatchWiden | src/app/age-estimation/page.tsx:144-145 | a match inside a slice is a match in the whole string |
| EmailGate.MatchNarrow | src/app/age-estimation/page.tsx:144-145 | a match that lies inside a slice is a match in that slice |
| EmailGate.TrimKeepsShape | src/app/food-analysis/page.tsx:149-157 | trimming before testing the unanchored pattern accepts and rejects exactly the same addresses |
| EmailGate.BlankNeverMatches | src/app/age-estimation/page.tsx:139-145 | no all-white-space input matches the pattern |
| EmailGate.CheckEmail | src/app/age-estimation/page.tsx:137-148 | the submit check is blank exactly for all-white-space input, and it accepts exactly the inputs whose trimmed (equivalently, raw) text matches the pattern |
| EmailGate.AcceptedExample | src/app/food-analysis/page.tsx:149-160 | `ana@correo.mx` is accepted |
| EmailGate.BlankExample | src/app/food-analysis/page.tsx:149-160 | input of spaces only is refused as blank, not as malformed |
| EmailGate.MalformedExample | src/app/food-analysis/page.tsx:149-160 | `ana@correo`, with no dot after the '@', is refused as malformed |
| JsonValue.Truthy | src/app/age-estimation/page.tsx:224 | JavaScript truthiness: `null`, `false`, `0` and `""` are falsy, every other value (arrays and objects included) is truthy; the `!responseData` tests and every `||` fallback use it |
| JsonValue.OrElse | src/app/age-estimation/page.tsx:238-239 | `v || fallback`: the field when it is present and truthy, the fallback otherwise |
| JsonValue.Coalesce | src/app/age-estimation/page.tsx:272 | `v ?? fallback`: only a missing or null field falls back |
| Submission.BuildRequest | src/app/age-estimation/page.tsx:171-174 | the form carries the address, the fixed `upsivale.mx` identifier and the file, under its own name or the page's default name |
| Submission.ReadPayload | src/app/age-estimation/page.tsx:188-194 | the body is read as JSON exactly when the content type includes `application/json`, and as text otherwise; a JSON body that cannot be decoded gives nothing; `Classify` states what follows from each case |
| Submission.ErrorMessage | src/app/age-estimation/page.tsx:196-200 | a string payload is the message verbatim, any other payload the fixed server message; `Classify` states it for failed responses |
| Submission.Classify | src/app/age-estimation/page.tsx:188-209 | only an ok response with a readable body is kept, as text or as decoded JSON; a failed text body is the message verbatim; a failed JSON body is the message only when it is a string, else the fixed server message; a thrown request or a JSON body that cannot be read gives the network message |
| Submission.EmptyTextBodyGivesEmptyMessage | src/app/food-analysis/page.tsx:205-210 | a failed response with an empty text body sets an empty message, which the page does not show |
| Submission.JsonMediaTypeDeclaresJson | src/app/age-estimation/page.tsx:189-190 | a content type of exactly `application/json` passes the JSON test |
| Submission.OkJsonIsKept | src/app/age-estimation/page.tsx:188-206 | an ok response declared as JSON whose body decodes is kept as the decoded value |
| Submission.JsonWithCharset | src/app/food-analysis/page.tsx:200-203 | the content-type test accepts `application/json; charset=utf-8` and rejects `text/plain` and a missing header |
| Camera.Settle | src/app/age-estimation/page.tsx:45-76 | the camera is ready exactly when the stream was granted; a missing camera API gives the error status with the unsupported-browser message, a failed request or play gives it with the permissions message |
| Camera.StatusMessage | src/app/food-analysis/page.tsx:223-226 | while loading, the overlay shows the loading text; after a failure with a reason, it shows the reason |
| Camera.FailureIsExplained | src/app/age-estimation/page.tsx:106-109 | after a failed start the overlay shows one of the two failure reasons, never the generic hint |
| AgeResult.IsCronosResponse | src/app/age-estimation/page.tsx:102-104 | the type guard holds for every object, arrays included, and for nothing else; `Render` states the raw dump exactly for truthy non-objects |
| AgeResult.IntervalText | src/app/age-estimation/page.tsx:238-239 | `confidence_interval || "Sin intervalo"` when that is a string; none when the value has no `split`; `Render` states the badge through it |
| AgeResult.Score | src/app/age-estimation/page.tsx:241-244 | the confidence score exactly when it is a number; `Render` states it |
| AgeResult.Summary | src/app/age-estimation/page.tsx:245-248 | `summary_ES || summary_EN || default`; `Render` states each of the three cases |
| AgeResult.IntervalDisplay | src/app/age-estimation/page.tsx:249-251 | the figure of 299-301: the two trimmed pieces around the first hyphen as `min - max` when both are non-empty, the raw string otherwise; `IntervalWithoutHyphen` and `IntervalFirstTwoPieces` state it for every string |
| AgeResult.Render | src/app/age-estimation/page.tsx:223-251 | nothing is shown for a falsy payload; any non-object truthy payload is dumped as it is; a truthy non-string interval makes rendering throw; for any other object, arrays included, the card shows the interval (`Sin intervalo` when missing or falsy) and its display form, the age when present and non-null (else `--` and `—`), the score exactly when it is a number, and the first truthy of `summary_ES`, `summary_EN` and the default summary |
| AgeResult.IntervalWithoutHyphen | src/app/age-estimation/page.tsx:249-251 | an interval without `-` splits into a single piece and is shown as it is |
| AgeResult.NoIntervalShownAsIs | src/app/age-estimation/page.tsx:238-251 | the fallback `Sin intervalo` has no hyphen, so the large figure shows it unchanged |
| AgeResult.SplitFirstTwo | src/app/age-estimation/page.tsx:249-251 | the first two pieces of `a-b`, followed by nothing or by another hyphen, are `a` and `b` |
| AgeResult.IntervalFirstTwoPieces | src/app/age-estimation/page.tsx:298-301 | with a hyphen, only the trimmed text before it and the trimmed text up to the next hyphen are shown, as `min - max`; if either is blank, the raw string is shown |
| AgeResult.IntervalCleanPair | src/app/age-estimation/page.tsx:299-301 | `lo-hi` with clean non-empty values is shown as `lo - hi` |
| AgeResult.AllFallbacks | src/app/age-estimation/page.tsx:237-248 | an object with none of the five fields the card reads (whatever else it holds), or an array, gets the card with every placeholder: `Sin intervalo`, `--`, `—`, no score, the default summary |
| AgeResult.RenderFallback | src/app/age-estimation/page.tsx:237-251 | an object or array whose interval, age, score and summaries all fall back gets the card filled with the placeholders |
| AgeResult.ObjectIsShown | src/app/age-estimation/page.tsx:224-226 | an object payload always leaves the capture view and is never dumped raw |
| AgeResult.AgeShownAsIs | src/app/age-estimation/page.tsx:272-293 | in any object whose interval renders, a present non-null age (even 0) is shown as it is; a null age becomes the placeholders |
| FoodResult.IsValidFoodPayload | src/app/food-analysis/page.tsx:336-339 | a non-null, non-array object whose `valid` is exactly `true`; `Route` opens the card exactly then, and `OnlyBooleanTrueIsValid` shows that a truthy non-`true` value does not |
| FoodResult.Route | src/app/food-analysis/page.tsx:334-351 | nothing is shown exactly for a falsy payload; the nutrition card exactly for a non-array object whose `valid` is `true`; a non-empty string is shown verbatim; anything else is dumped as JSON |
| FoodResult.OnlyBooleanTrueIsValid | src/app/food-analysis/page.tsx:336-339 | a `valid` other than the boolean `true` gets the raw dump, and so does an array |
| NutritionCard.Clamp | src/components/NutritionCard.tsx:34-39 | a clamped macro is never negative, and it is positive exactly when the field is a positive number, in which case it is that number |
| NutritionCard.ClampedMacros | src/components/NutritionCard.tsx:34-41 | all three clamped macros are non-negative, and their total is 0 exactly when all three are 0 |
| NutritionCard.Share | src/components/NutritionCard.tsx:48-54 | a share of the circle lies within it, is in proportion to its macro, and is positive exactly when the macro is |
| NutritionCard.ArcLengths | src/components/NutritionCard.tsx:41-55 | with no macros all arcs are 0; otherwise they add up to the circumference, each lies in [0, circumference] and each is in proportion to its macro |
| NutritionCard.SharesAddUp | src/components/NutritionCard.tsx:47-55 | three proportional shares of the circle add up to the whole circle |
| NutritionCard.DonutOf | src/components/NutritionCard.tsx:57-131 | a segment is drawn only when the total and its own length are positive; its dash gap is the rest of the circle; the offsets are 0, minus the fat arc, and minus fat plus protein |
| NutritionCard.DrawnIffPositive | src/components/NutritionCard.tsx:87-119 | without macros nothing coloured is drawn, and each segment is drawn exactly when its clamped macro is positive |
| NutritionCard.ArcsTileTheCircle | src/components/NutritionCard.tsx:57-59 | fat starts at 0, each drawn arc starts where the previous one ends, every dash and gap make up the circle, and the carbohydrate arc ends at the circumference |
| NutritionCard.OneTwoThree | src/components/NutritionCard.tsx:48-54 | macros in the proportion 1:2:3 (such as 10, 20 and 30 g) give a sixth, a third and a half of the circle |
| NutritionCard.CancelUnit | src/components/NutritionCard.tsx:48-54 | helper of `OneTwoThree` (models no source line by itself): a common positive factor cancels out of a proportion |
| NutritionCard.DisplayName | src/components/NutritionCard.tsx:28 | the title is the upper-cased `name_ES` if it is a non-empty string, else `name_EN`, else `Alimento desconocido`; it contains no lower-case letter; rendering throws exactly when the value chosen is truthy but not a string |
| NutritionCard.EnergyLabel | src/components/NutritionCard.tsx:140 | the centre shows `energy_kcal` unless it is missing or null, then `--` |
| NutritionCard.Rows | src/components/NutritionCard.tsx:160-183 | one row for each macro field that is present and for no other field, each at most once, in the order fat, protein, carbohydrates, with its raw, unclamped value |
| NutritionCard.ListedButNotDrawn | src/components/NutritionCard.tsx:34-39 | a non-positive or non-numeric fat value is listed as received but draws no segment |
| AgeEstimation.AgeEstimationPage.Valid | src/app/age-estimation/page.tsx:135-152 | while the e-mail dialog is closed the address has the pattern's shape and no e-mail error is shown; every handler preserves it |
| AgeEstimation.AgeEstimationPage.constructor | src/app/age-estimation/page.tsx:28-40 | the page starts with the camera loading, the e-mail dialog open, an empty address and nothing captured or sent |
| AgeEstimation.AgeEstimationPage.CameraSettled | src/app/age-estimation/page.tsx:45-76 | the status becomes ready exactly when the stream was granted; a failure records its reason |
| AgeEstimation.AgeEstimationPage.Overlay | src/app/age-estimation/page.tsx:106-109 | the overlay is hidden exactly when the camera is ready; it shows the loading text while loading, and the reason after a failure |
| AgeEstimation.AgeEstimationPage.HandleCapture | src/app/age-estimation/page.tsx:111-126 | a capture happens exactly when the camera is ready, the video and canvas exist, the video has a frame and a 2D context is available; it keeps the frame, clears the previous result and opens the preview (on screen for any non-empty frame); otherwise nothing changes |
| AgeEstimation.AgeEstimationPage.FilePrepared | src/app/age-estimation/page.tsx:127-132 | a built file becomes the file to send; a failed build sets the preparation message and keeps the previous file |
| AgeEstimation.AgeEstimationPage.EditEmail | src/app/age-estimation/page.tsx:489-492 | typing replaces the address and clears the e-mail error, inside the open dialog |
| AgeEstimation.AgeEstimationPage.HandleEmailSubmit | src/app/age-estimation/page.tsx:135-152 | blank input keeps the dialog open with the blank message; a non-matching input keeps it open with the malformed message; a match clears the error and closes the dialog |
| AgeEstimation.AgeEstimationPage.HandleSendRequest | src/app/age-estimation/page.tsx:154-186 | without a file, only the photo message is set and no request is issued; without an address, the dialog reopens with its message and no request is issued; otherwise the outcome is cleared, sending starts and the form is issued; with the dialog closed, a send with a file always issues a request carrying a valid address |
| AgeEstimation.AgeEstimationPage.ReceiveResponse | src/app/age-estimation/page.tsx:188-212 | success keeps the payload and closes the preview; failure sets the classified message and leaves the kept payload; sending ends on every path |
| AgeEstimation.AgeEstimationPage.HandleGenerateAgain | src/app/age-estimation/page.tsx:215-221 | the preview, result, error, file and capture are all cleared, the capture view returns, and the address and dialog are untouched |
| AgeEstimation.AgeEstimationPage.ClosePreview | src/app/age-estimation/page.tsx:403 | the preview closes |
| AgeEstimation.AgeEstimationPage.PreviewOpen | src/app/age-estimation/page.tsx:395 | the preview is on screen only while it is open and there is a capture |
| AgeEstimation.AgeEstimationPage.SendEnabled | src/app/age-estimation/page.tsx:419-427 | the send button is shown only with the preview open and no result, and is enabled only with a file and no send under way; `EnabledSendPassesGuards` states what a tap on it can rely on |
| AgeEstimation.AgeEstimationPage.EnabledSendPassesGuards | src/app/age-estimation/page.tsx:419-427 | with the send button enabled and the dialog closed the address is non-empty, so a tap never stops at the address check |
| AgeEstimation.AgeEstimationPage.View | src/app/age-estimation/page.tsx:460 | the capture view is shown exactly while the kept payload is falsy |
| AgeEstimation.SendReady | src/app/age-estimation/page.tsx:154-186 | with the dialog closed and a file ready, sending passes both guards: it issues the request for that file with the fixed identifier and the page's own address, which has the required shape; it starts sending and clears the previous result and error; it changes only those fields, so the dialog stays closed and the address and preview are unchanged |
| AgeEstimation.ReceiveObject | src/app/age-estimation/page.tsx:188-212 | an ok JSON object response ends sending, keeps the object, closes the preview and leaves the capture view without a raw dump; the error is unchanged and nothing outside sending, result and preview changes |
| AgeEstimation.SuccessfulRound | src/app/age-estimation/page.tsx:154-206 | with the dialog closed and a file ready, sending issues a request for the file with the fixed identifier and the page's address, which `CheckEmail` accepts; an ok JSON object response then replaces the capture view with the result card, with no error and the dialog still closed |
| AgeEstimation.TwoRounds | src/app/age-estimation/page.tsx:154-212 | the address is asked for once: two sends in a row both go out with the same address, the dialog stays closed and the page keeps the second result |
| FoodAnalysis.FoodAnalysisPage.Valid | src/app/food-analysis/page.tsx:147-164 | while the e-mail dialog is closed the address has the pattern's shape and no e-mail error is shown; every handler preserves it |
| FoodAnalysis.FoodAnalysisPage.constructor | src/app/food-analysis/page.tsx:25-35 | the page starts with the camera loading, the e-mail dialog open, an empty address and nothing captured or sent |
| FoodAnalysis.FoodAnalysisPage.CameraSettled | src/app/food-analysis/page.tsx:40-71 | the status becomes ready exactly when the stream was granted; a failure records its reason |
| FoodAnalysis.FoodAnalysisPage.Overlay | src/app/food-analysis/page.tsx:223-226 | the overlay is hidden exactly when the camera is ready; it shows the loading text while loading, and the reason after a failure |
| FoodAnalysis.FoodAnalysisPage.HandleCapture | src/app/food-analysis/page.tsx:97-113 | a capture happens exactly when the camera is ready, the video and canvas exist, the video has a frame and a 2D context is available; it keeps the frame, clears the previous result and opens the preview (on screen for any non-empty frame); otherwise nothing changes |
| FoodAnalysis.FoodAnalysisPage.FilePrepared | src/app/food-analysis/page.tsx:114-119 | a built file becomes the file to send; a failed build sets the preparation message and keeps the previous file |
| FoodAnalysis.FoodAnalysisPage.HandleFileChange | src/app/food-analysis/page.tsx:128-145 | with no file, or a read that gives no string, nothing changes; otherwise the data URL becomes the capture, the original file is the one sent, the result is cleared and the preview opens (on screen for any non-empty data URL) |
| FoodAnalysis.FoodAnalysisPage.EditEmail | src/app/food-analysis/page.tsx:389-392 | typing replaces the address and clears the e-mail error, inside the open dialog |
| FoodAnalysis.FoodAnalysisPage.HandleEmailSubmit | src/app/food-analysis/page.tsx:147-164 | blank input keeps the dialog open with the blank message; a non-matching input keeps it open with the malformed message; a match clears the error and closes the dialog |
| FoodAnalysis.FoodAnalysisPage.HandleSendRequest | src/app/food-analysis/page.tsx:166-198 | without a file, only the photo message is set and no request is issued; without an address, the dialog reopens with its message and no request is issued; otherwise the outcome is cleared, sending starts and the form is issued; with the dialog closed, a send with a file always issues a request carrying a valid address |
| FoodAnalysis.FoodAnalysisPage.ReceiveResponse | src/app/food-analysis/page.tsx:200-220 | success keeps the payload and leaves the preview as it was; failure sets the classified message and leaves the kept payload; sending ends on every path |
| FoodAnalysis.FoodAnalysisPage.ClosePreview | src/app/food-analysis/page.tsx:307 | the preview closes |
| FoodAnalysis.FoodAnalysisPage.PreviewOpen | src/app/food-analysis/page.tsx:301 | the preview is on screen only while it is open and there is a capture |
| FoodAnalysis.FoodAnalysisPage.SendEnabled | src/app/food-analysis/page.tsx:321-328 | the send button is always in the open preview and is enabled only with a file and no send under way; `EnabledSendPassesGuards` states what a tap on it can rely on |
| FoodAnalysis.FoodAnalysisPage.EnabledSendPassesGuards | src/app/food-analysis/page.tsx:321-328 | with the send button enabled and the dialog closed the address is non-empty, so a tap never stops at the address check |
| FoodAnalysis.FoodAnalysisPage.Result | src/app/food-analysis/page.tsx:334-339 | nothing is shown exactly while the payload is falsy; the nutrition card is shown exactly for a valid food payload |
| FoodAnalysis.SendReady | src/app/food-analysis/page.tsx:166-198 | with the dialog closed and a file ready, sending passes both guards: it issues the request for that file with the fixed identifier and the page's own address, which has the required shape; it starts sending and clears the previous result and error; it changes only those fields, so the dialog stays closed and the address and preview are unchanged |
| FoodAnalysis.ReceiveNutrition | src/app/food-analysis/page.tsx:200-220 | an ok JSON response with `valid: true` ends sending and shows the nutrition card; the error and the preview stay as they were and nothing outside sending and the result changes |
| FoodAnalysis.SuccessfulRound | src/app/food-analysis/page.tsx:166-214 | with the dialog closed and a file ready, sending issues a request for the file with the fixed identifier and the page's address, which `CheckEmail` accepts; an ok JSON response with `valid: true` then shows the nutrition card with no error, the dialog still closed and the preview as it was |
| FoodAnalysis.TwoRounds | src/app/food-analysis/page.tsx:166-220 | the address is asked for once: two sends in a row both go out with the same address, the dialog stays closed and the page keeps the second payload |

## Left out

- Acquiring and releasing the camera (`getUserMedia`, `video.play`, stopping the tracks), and the path where the page unmounts before the stream arrives. Only the outcome of starting the camera enters the model, through `CameraSettled`.
- Drawing the frame on the canvas, JPEG encoding, `buildFileFromDataUrl` and `FileReader`. The frame and the data URL are opaque strings, and the built or read file is an input.
- The `fetch` POST itself: the endpoints, the bearer token, the multipart encoding and the timestamped file names. The request is a record, and the response is an input.
- `Math.PI` and floating point in general. The circumference is an abstract positive real, and lengths are exact reals.
- The percent rounding of the confidence score (`Math.round(score * 100)`), its `N/D` placeholder, and the unused certainty level. The card keeps the raw score.
- `JSON.stringify` output. The raw dump keeps the value itself.
- JSX markup, styling, links, the page reload button and React's render scheduling. The model does not capture what React does with an array or an object passed as a child, either.
- Text.Upper: upper-cases only ASCII and Latin-1 letters. Full Unicode case mapping is not modelled, including letters that change length (`ß`) or move outside Latin-1 (`ÿ`, `µ`).
- Strings are sequences of characters, not UTF-16 code units.
- Reading a text body that throws is not a separate input: `HttpResponse` carries the text as read. Such a failure ends like a failed request, with the network message and sending ended, which `NetworkFailure` already covers.
- JavaScript's own properties on non-object payloads (such as a string's `length`) are not looked up. `JsonValue.Get` returns nothing for them, and the keys the pages read are not names of such properties.
- `src/app/page.tsx` and `src/components/logo.tsx` are static markup and are not part of this model.
