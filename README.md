# DentoScan in Dafny

DentoScan takes dental radiographs (`.dcm` and `.rvg` files). The browser page checks the selected files and keeps them with previews. It sends each file to the `/api/predict` endpoint and collects one result per file. Each result shows the detected pathologies as boxes drawn over the image, plus a written report.

On the server, the endpoint does the following:
- checks the extension;
- saves the upload;
- converts it to PNG;
- runs the detector, whose raw boxes pass through greedy non-maximum suppression;
- asks a language model for the report, falling back to a fixed mock report.

This project models the decision logic of those parts and proves what they promise.

| file | module | what it models |
|---|---|---|
| `wrappers.dfy` | `Wrappers` | `Option` and `Outcome` (a step that returned a value or raised) |
| `text.dfy` | `Text` | the string operations the code relies on: lower-casing, `lastIndexOf`, `split(c)[-1]`, `slice`, `startsWith`, `join`, decimal text of a number |
| `detection.dfy` | `Detection` | the prediction record and the geometry every overlay shares: center/size to top-left rectangle, center/size to corners, colour lookup, label text |
| `image_overlay.dfy` | `ImageOverlay` | the image viewer component: rendered size on load, the guarded per-axis scale, one overlay per prediction |
| `dicom_viewer.dfy` | `DicomViewer` | the DICOM viewer: the `wadouri:` id rule; a `Canvas` class recording the 2D context's calls; the drawing loop; the effect that loads the image and sets the error |
| `app.dfy` | `App` | the page: intake of a selection, the `Page` class holding files, previews, results, error and selection, the batch of requests with its per-id reducer, removal, the Reanalyze reset, and the inline box renderer |
| `nms.dfy` | `Nms` | `compute_iou` and `apply_nms`: the argsort as an insertion sort, and the suppression loop proved against a recursive specification |
| `report.dfy` | `Report` | `generate_report`: the key check, the "no findings" text, the prompt built line by line, the mock-report fallback |
| `routes.dfy` | `Routes` | the `/predict` handler: extension check, the order of its error answers, the JSON body, and which paths leave the temporary file on disk |
| `agreement.dfy` | `Agreement` | how the page's extension check and the endpoint's relate |

Numbers that are floats in the code are Dafny `real`s, so arithmetic is exact.

Calls the model cannot see are parameters holding their outcome:
- `fetch`;
- `convert_dicom_to_png`;
- `Image.open`;
- `get_predictions`;
- the Gemini call;
- cornerstone's `enable` and `loadImage`;
- `measureText`.

`Page.FileSelect` checks the files of a selection in the order given. `Page.Predict` takes the order in which the requests completed as a parameter, and its result is proved to be the same for every order.

The system's design description and the code disagree in places; the model follows the code:
- The description asks every coordinate mapping to fall back to scale 1 without dimensions. In the code, only the image viewer does that. The inline renderer draws nothing instead (`App.InlineRefusesWhereViewerFallsBack`). The DICOM viewer divides without a guard (`DicomViewer.DrawOverlay`).
- The description says a file repeating an earlier one is rejected. The code compares only with files selected in earlier events. The same file picked twice in one selection is accepted twice (`App.RepeatWithinOneSelectionAccepted`).
- The description promises image previews for browser-renderable files. The extension check admits only `.dcm` and `.rvg`, so no file ever gets one (`App.ScanSelection`).
- The expected error texts in `backend/tests/test_api.py` are out of date. The model uses the strings in `backend/app/api/routes.py`.

## Model

| member | source | states |
|---|---|---|
| Text.Lower | frontend/src/App.jsx:69 | lower-casing keeps the length and maps every character through ASCII lower-casing |
| Text.LastIndexOf | frontend/src/App.jsx:69 | the result is -1 or a position holding the character, and no later position holds it |
| Text.AfterLast | backend/app/api/routes.py:27 | `split(c)[-1]` is a suffix of the text without `c`, and it is either the whole text or preceded by `c` |
| Text.AfterLastIndex | backend/app/api/routes.py:27 | `split(c)[-1]` is exactly the text after the position `lastIndexOf(c)` finds, so both ways of reading an extension see the same last dot |
| Text.JoinSnoc | backend/app/services/llm_service.py:16 | joining one more element appends the separator and that element |
| Text.NatToString | frontend/src/components/ImageWithBoundingBoxes.jsx:87 | decimal text is non-empty, all digits, with no leading zero |
| Text.NatToStringValue | frontend/src/components/ImageWithBoundingBoxes.jsx:87 | the decimal text of `n` reads back as `n` |
| Text.IntToString | frontend/src/components/ImageWithBoundingBoxes.jsx:87 | the text starts with '-' exactly for negative numbers, and every other character is a digit |
| Text.IntToStringValue | frontend/src/components/ImageWithBoundingBoxes.jsx:87 | the text of an integer reads back as its value: for n >= 0 the digits spell n, for n < 0 the digits after the '-' spell -n |
| Detection.BoxRect | frontend/src/components/ImageWithBoundingBoxes.jsx:49-52 | the rectangle is centred on the scaled center and has the scaled width and height |
| Detection.Corners | backend/app/services/roboflow_service.py:61-66 | the corner box has the prediction's center as midpoint and its width and height as extents |
| Detection.BoxRectSpansScaledCorners | frontend/src/components/ImageWithBoundingBoxes.jsx:49-52 | scaling commutes with the center-to-corner conversion: the rectangle's edges are the scaled corners |
| Detection.BoxRectExample | frontend/src/components/ImageWithBoundingBoxes.jsx:49-52 | center (100,50), size 40x20, native 200x100 drawn at 400x200 gives left 160, top 80, width 80, height 40 |
| Detection.ColourFor | frontend/src/components/ImageWithBoundingBoxes.jsx:54-56 | a class equal to "cavity" after lower-casing gives red, "periapical lesion" gives blue, any other class lime |
| Detection.ColourForIgnoresCase | frontend/src/components/ImageWithBoundingBoxes.jsx:54-56 | the colour depends on the class only up to letter case: "CAVITY" is red, "Periapical Lesion" blue |
| Detection.JsRound | frontend/src/components/ImageWithBoundingBoxes.jsx:87 | `Math.round` gives the integer within half of the value, halves rounding up |
| Detection.LabelText | frontend/src/components/ImageWithBoundingBoxes.jsx:87 | the label starts with the class and " - ", ends with '%', and between them holds the decimal text of `Math.round(confidence * 100)` |
| Detection.LabelTextPercent | frontend/src/components/ImageWithBoundingBoxes.jsx:87 | the text between " - " and '%' reads back as an integer within half of the confidence in percent (its magnitude after a '-' when negative) |
| ImageOverlay.OnImageLoad | frontend/src/components/ImageWithBoundingBoxes.jsx:8-13 | the rendered width is the container width (the natural width without a container), and the rendered aspect ratio equals the natural one |
| ImageOverlay.ScaleAxis | frontend/src/components/ImageWithBoundingBoxes.jsx:24-25 | with both sizes present and non-zero the scale maps native to rendered size; otherwise it is exactly 1 |
| ImageOverlay.Overlay | frontend/src/components/ImageWithBoundingBoxes.jsx:46-87 | one overlay carries the prediction's rectangle at the given scale, the colour of its class and its label text |
| ImageOverlay.Render | frontend/src/components/ImageWithBoundingBoxes.jsx:22-91 | nothing is rendered exactly when the image URL is missing or empty; otherwise one overlay per prediction in input order, none without predictions |
| ImageOverlay.RenderBeforeLoadIsIdentity | frontend/src/components/ImageWithBoundingBoxes.jsx:6-25 | before the image has loaded (size 0 x 0) boxes are drawn in native coordinates |
| ImageOverlay.ScaleFallsBackToOne | frontend/src/components/ImageWithBoundingBoxes.jsx:24 | missing or zero native width gives horizontal scale 1 |
| ImageOverlay.LoadedScaleIsUniform | frontend/src/components/ImageWithBoundingBoxes.jsx:8-25 | once loaded into a container, with the image's natural size as dimensions, both axes scale by container width over natural width |
| DicomViewer.FormatImageId | frontend/src/components/DicomViewer.jsx:33-36 | a non-empty id without `wadouri:` becomes `wadouri:` followed by the id; every other id, including a missing or empty one or one that already has the prefix, is left unchanged |
| DicomViewer.FormatImageIdIdempotent | frontend/src/components/DicomViewer.jsx:33-36 | applying the rule twice is applying it once |
| DicomViewer.Canvas.constructor | frontend/src/components/DicomViewer.jsx:42-45 | a fresh 2D context has the canvas's size and nothing drawn on it |
| DicomViewer.Canvas.DrawStroke | frontend/src/components/DicomViewer.jsx:69 | `strokeRect` appends one stroked rectangle in the current stroke colour |
| DicomViewer.Canvas.DrawFill | frontend/src/components/DicomViewer.jsx:74 | `fillRect` appends one filled rectangle in the current fill colour |
| DicomViewer.Canvas.DrawText | frontend/src/components/DicomViewer.jsx:77 | `fillText` appends one text call in the current fill colour |
| DicomViewer.PredictionOpsLayout | frontend/src/components/DicomViewer.jsx:56-77 | one prediction draws exactly three calls: its box stroked in its colour, then a caption background in that colour sharing the box's left edge and ending at its top edge, then the label in white 3 pixels in, within the background |
| DicomViewer.OverlayOps | frontend/src/components/DicomViewer.jsx:55-78 | drawing n predictions makes exactly 3n calls |
| DicomViewer.OverlayOpsSnoc | frontend/src/components/DicomViewer.jsx:55-78 | one more prediction appends its own three calls after those of the earlier ones |
| DicomViewer.OverlayOpsAt | frontend/src/components/DicomViewer.jsx:55-78 | the calls for prediction i are those at positions 3i, 3i+1 and 3i+2 |
| DicomViewer.OverlayLayout | frontend/src/components/DicomViewer.jsx:57-77 | prediction i's box is stroked in its colour; the caption background shares the box's left edge and colour and ends at the box's top edge; the white caption starts 3 pixels in, within the background |
| DicomViewer.FullImageBoxFillsCanvas | frontend/src/components/DicomViewer.jsx:47-49 | with positive dimensions, a box covering the whole native image covers the whole canvas |
| DicomViewer.DrawPrediction | frontend/src/components/DicomViewer.jsx:56-77 | one iteration appends exactly that prediction's three calls, and leaves the stroke colour as the class colour and the fill colour white |
| DicomViewer.DrawAll | frontend/src/components/DicomViewer.jsx:55-78 | the loop appends the calls of every prediction in list order; it may change only the drawn calls and the two colours, so line width, font and baseline stay as set; after a non-empty list the stroke colour is the last prediction's class colour and the fill colour is white, and an empty list leaves both colours as they were |
| DicomViewer.DrawOverlay | frontend/src/components/DicomViewer.jsx:47-78 | sets width 2, "14px Arial" and baseline "top", then draws every prediction scaled by canvas size over image dimensions |
| DicomViewer.Viewer.constructor | frontend/src/components/DicomViewer.jsx:21 | the viewer starts without an error |
| DicomViewer.Viewer.Mount | frontend/src/components/DicomViewer.jsx:23-86 | an initialisation failure sets "Error initializing DICOM viewer." and draws nothing. Otherwise the formatted id is requested, and a load failure sets "Failed to load DICOM image." and draws nothing. A canvas without context draws nothing and sets no error. With a context, line width 2, "14px Arial" and baseline "top" are set. A missing prediction list then sets "Failed to load DICOM image." and draws nothing; an empty one draws nothing; otherwise the overlay is drawn. Either of the last two sets no error |
| Nms.InterArea | backend/app/services/roboflow_service.py:32-39 | the intersection is never negative and is 0 for boxes that are disjoint or only touch |
| Nms.IouTimesUnion | backend/app/services/roboflow_service.py:28-50 | with a non-zero union, IoU times the union is the intersection; with a zero union it is 0 |
| Nms.InterAreaBounded | backend/app/services/roboflow_service.py:32-42 | for well-formed boxes the intersection is no larger than either box |
| Nms.IouSymmetric | backend/app/services/roboflow_service.py:28-50 | `compute_iou(a, b) == compute_iou(b, a)` |
| Nms.IouOfSeparatedBoxes | backend/app/services/roboflow_service.py:32-50 | disjoint or edge-touching boxes have IoU 0, including when the union is 0 |
| Nms.IouInUnitInterval | backend/app/services/roboflow_service.py:28-50 | for well-formed boxes IoU lies in [0, 1] |
| Nms.IouSelfIsOne | backend/app/services/roboflow_service.py:28-50 | a well-formed box has IoU 1 with itself |
| Nms.Survivors | backend/app/services/roboflow_service.py:86-90 | the candidates left after one round are exactly those whose IoU with the kept box is not above the threshold |
| Nms.NmsOrder | backend/app/services/roboflow_service.py:73-90 | greedy suppression keeps only candidates, never more than there are, and keeps the first one |
| Nms.SurvivorsDistinct | backend/app/services/roboflow_service.py:86-90 | filtering distinct candidates leaves distinct candidates |
| Nms.SurvivorsDescending | backend/app/services/roboflow_service.py:86-90 | filtering candidates in confidence order leaves them in confidence order |
| Nms.NmsDistinct | backend/app/services/roboflow_service.py:73-90 | no index is kept twice |
| Nms.NmsDescending | backend/app/services/roboflow_service.py:71-90 | kept indices come out by non-increasing confidence |
| Nms.NmsNoOverlap | backend/app/services/roboflow_service.py:86-90 | no two kept boxes overlap by more than the threshold |
| Nms.NmsCoversDropped | backend/app/services/roboflow_service.py:74-90 | every candidate is kept or overlaps, by more than the threshold, a kept box at least as confident |
| Nms.SortByConfidence | backend/app/services/roboflow_service.py:71 | the reversed argsort lists every index exactly once by non-increasing confidence |
| Nms.SuppressionStep | backend/app/services/roboflow_service.py:74-90 | one round moves the head to the kept list and its survivors stay candidates; with one candidate left the loop ends |
| Nms.SuppressionLoop | backend/app/services/roboflow_service.py:73-90 | the `while` loop keeps exactly the indices greedy suppression specifies |
| Nms.ApplyNms | backend/app/services/roboflow_service.py:52-93 | the result is the input predictions at the kept indices: empty exactly for empty input, most confident first, no two overlapping above the threshold, every input kept or covered by a kept prediction at least as confident, the first kept maximally confident |
| Nms.NmsProperties | backend/app/services/roboflow_service.py:57-93 | the guarantees of `apply_nms` hold for every confidence order of the input |
| Nms.NmsKeptByConfidence | backend/app/services/roboflow_service.py:71-93 | kept predictions are listed by non-increasing confidence |
| Nms.NmsKeptApart | backend/app/services/roboflow_service.py:86-93 | no two kept predictions have IoU above the threshold |
| Nms.NmsCoversOne | backend/app/services/roboflow_service.py:86-93 | for any in-range kept indices, an input covered at index level is among the picked predictions or overlaps one of them above the threshold with at least its confidence |
| Nms.NmsKeptCovers | backend/app/services/roboflow_service.py:74-93 | every input prediction is kept or suppressed by a kept one with IoU above the threshold and at least its confidence |
| Nms.NmsFirstIsMostConfident | backend/app/services/roboflow_service.py:57-77 | the output is empty exactly for empty input, and its first element has maximal confidence |
| Report.JoinContains | backend/app/services/llm_service.py:16 | every element occurs in the joined text |
| Report.PathologyListNames | backend/app/services/llm_service.py:16 | the list of findings names every predicted class |
| Report.MockReportNamesFindings | backend/app/services/llm_service.py:16-17 | the mock report begins with its fixed heading and names every predicted class between the heading and the closing text |
| Report.MockReport | backend/app/services/llm_service.py:16-17 | the mock report starts with its fixed heading and ends with its fixed closing text; between them are the classes joined by ", " in prediction order, or "no pathologies" without predictions |
| Report.MockReportSnoc | backend/app/services/llm_service.py:16 | the findings grow in prediction order: one prediction gives its class alone, and each further prediction appends ", " and its class |
| Report.PromptBodySnoc | backend/app/services/llm_service.py:23-25 | each loop iteration appends exactly the line of its prediction |
| Report.BuildPrompt | backend/app/services/llm_service.py:22-27 | the loop builds the header, one line per prediction in order, then the footer |
| Report.Prompt | backend/app/services/llm_service.py:22-27 | the prompt is the fixed header, then the body of prediction lines, then the fixed footer |
| Report.PromptBodyLines | backend/app/services/llm_service.py:23-25 | with class names and percentages free of line breaks, the body has exactly one line per prediction |
| Report.PromptBodyInOrder | backend/app/services/llm_service.py:23-25 | the lines of the first j predictions begin the body, so lines follow prediction order |
| Report.GenerateReport | backend/app/services/llm_service.py:9-50 | without a key: the mock report, and no prompt sent. With a key and no predictions: exactly "No pathologies detected.", and no prompt sent. Otherwise the prompt is sent; a non-empty answer is returned verbatim, while no answer, an empty one or a failure gives the mock report |
| Routes.ExtensionOf | backend/app/api/routes.py:27 | the extension contains no dot and is no longer than the name |
| Routes.ExtensionOfDotted | backend/app/api/routes.py:27 | the extension of `stem.ext`, with no dot in `ext`, is `ext` lower-cased |
| Routes.ExtensionOfUndotted | backend/app/api/routes.py:27 | a name without a dot is its own extension, lower-cased |
| Routes.Basename | backend/app/api/routes.py:46 | the basename is the suffix after the last '/', or the whole path when it has none |
| Routes.RespondSaved | backend/app/api/routes.py:54-100 | after saving, the first failing step decides: a failed conversion gives 500 "Could not convert DICOM to PNG: ", else a failed inference 500 "Error during image analysis: ", else a failed report 500 "Error generating diagnostic report: ", each with the message; the JSON body comes exactly when all three succeeded |
| Routes.Respond | backend/app/api/routes.py:24-100 | every error is 400 or 500; it is 400 exactly when the extension is refused; an accepted upload that fails to save gets 500 with "Could not save file: " and the message; once saved, the conversion, inference and report failures give their 500 answers in that order |
| Routes.Predict | backend/app/api/routes.py:24-100 | the answer is: 400 for a bad extension; else 500 naming the first failing step (save, conversion, inference, report); else the JSON body. The temporary file stays only after a failed copy or a failed inference, is removed on every other path that wrote it, and the PNG stays exactly when conversion ran and succeeded |
| Routes.AnalyzeSaved | backend/app/api/routes.py:39-100 | after saving: the answer as above. The temporary copy is removed on every path except a failed inference after a successful conversion, and the PNG stays once converted |
| Routes.RejectedBeforeSaving | backend/app/api/routes.py:26-29 | the answer is 400 exactly for an extension outside {dcm, rvg}; then the detail is the fixed text and nothing is written |
| Routes.SuccessExactlyWhenAllStepsSucceed | backend/app/api/routes.py:33-100 | every error is 400 or 500; the JSON body comes exactly when every step succeeded, and carries the predictions, the report, the dimensions and "/static/" + the PNG's basename |
| Routes.CleanupMatchesResponse | backend/app/api/routes.py:54-89 | a success leaves no temporary file and keeps the PNG; a leftover temporary file comes only with a 500 reporting a failed save or a failed analysis |
| Agreement.PageAcceptedImpliesEndpointAccepted | backend/app/api/routes.py:27-28 | every name the page's check accepts, the endpoint accepts, and the endpoint's extension is the page's without the dot |
| Agreement.BareNameSplitsTheChecks | frontend/src/App.jsx:69-70 | a file named just `dcm` is refused by the page but accepted by the endpoint |
| App.Extension | frontend/src/App.jsx:69 | with a dot, the extension is the lower-cased text from the last dot; without one it is at most one character |
| App.Check | frontend/src/App.jsx:44-73 | the first failing check decides: duplicate exactly when an earlier file has the name and size; too large exactly when not a duplicate and over 52428800 bytes; unsupported exactly when it passes those and its extension is not ".dcm" or ".rvg" |
| App.AcceptedIff | frontend/src/App.jsx:44-73 | a file is accepted exactly when no earlier file has its name and size, its size is at most 52428800, and its name ends in ".dcm" or ".rvg" from its last dot, in any case |
| App.SizeLimitIsInclusive | frontend/src/App.jsx:64 | 52428800 bytes pass the size check, 52428801 do not |
| App.UpperCaseExtensionAccepted | frontend/src/App.jsx:69-70 | "A.DCM" is accepted |
| App.CollectIds | frontend/src/App.jsx:75-77 | whatever the verdicts, accepted files get consecutive ids from the first free one |
| App.CollectAddsOnlyAccepted | frontend/src/App.jsx:44-77 | whatever the verdicts, only files with an accepting verdict are added |
| App.CollectAddsEveryAccepted | frontend/src/App.jsx:44-77 | whatever the verdicts, every file with an accepting verdict is added |
| App.CollectErrorsSound | frontend/src/App.jsx:64-73 | whatever the verdicts, every message comes from a file refused for size or format |
| App.CollectErrorsComplete | frontend/src/App.jsx:64-73 | whatever the verdicts, every file refused for size or format contributes its message |
| App.CollectNotice | frontend/src/App.jsx:51-61 | whatever the verdicts, a notice remains exactly when some verdict is a duplicate, and it names the last such file |
| App.IntakeIds | frontend/src/App.jsx:75-77 | accepted files get consecutive fresh ids and the next free id moves past them |
| App.IntakeAddsOnlyAccepted | frontend/src/App.jsx:44-77 | every added file is from the selection and passes all three checks |
| App.IntakeAddsEveryAccepted | frontend/src/App.jsx:44-77 | every selected file that passes all three checks is added |
| App.IntakeErrorsSound | frontend/src/App.jsx:64-73 | every message after a selection belongs to a file of it refused for size or format |
| App.IntakeErrorsComplete | frontend/src/App.jsx:64-73 | each oversized file contributes "<name>: File size exceeds 50MB limit." and each unsupported one its format message |
| App.IntakeNotice | frontend/src/App.jsx:51-61 | a notice "<name> is already uploaded" remains exactly when some selected file repeats an earlier one, and it names the last such file |
| App.RepeatWithinOneSelectionAccepted | frontend/src/App.jsx:46-49 | the same acceptable file picked twice in one selection is added twice, with consecutive ids |
| App.ScanSelection | frontend/src/App.jsx:44-92 | the loop collects exactly the pass over the selection, and one preview per added file with its id, its name and no image |
| App.Without | frontend/src/App.jsx:183 | filtering never lengthens the list |
| App.WithoutMembers | frontend/src/App.jsx:183-185 | the filter keeps exactly the elements whose id differs |
| App.WithoutAbsent | frontend/src/App.jsx:183-185 | removing an id that is not listed changes nothing |
| App.WithoutKeepsPreviewsInStep | frontend/src/App.jsx:183-184 | removing an id from the files and from their previews leaves the previews of the remaining files |
| App.WithoutKeepsIds | frontend/src/App.jsx:183 | removal keeps ids distinct and below the next free id |
| App.FinishedOutcome | frontend/src/App.jsx:138-154 | a finished entry keeps its file's id and name and is not loading. It carries a non-empty error exactly when the request failed: the response's `detail`, else "Failed to analyze file"; for an exception, its message, else "Error processing file.". On success it has the image URL "http://localhost:8000" + `png_url` and the returned predictions, report and dimensions |
| App.ReplaceById | frontend/src/App.jsx:157-159 | a completion never changes the number of results |
| App.ReplaceByIdAbsent | frontend/src/App.jsx:157-159 | a completion for an id that was removed changes nothing |
| App.ReplaceByIdOnlyOwnEntry | frontend/src/App.jsx:157-159 | with distinct ids, a completion replaces only its own entry |
| App.ReplaceByIdCommutes | frontend/src/App.jsx:157-159 | completions for different ids commute |
| App.Finished | frontend/src/App.jsx:138-154 | a completion keeps the entry's id and name and ends loading. On success it stores the returned predictions, report and dimensions and keeps the error as it was. On failure it sets a non-empty error and leaves the payload untouched |
| App.Completed | frontend/src/App.jsx:127-165 | a finished batch has one entry per file |
| App.CompletedMatchesFiles | frontend/src/App.jsx:127-165 | after a batch, entry k belongs to the k-th file, is not loading, and has an error exactly when its request failed |
| App.RenderBoundingBoxes | frontend/src/App.jsx:189-216 | it renders exactly when predictions, the image element and non-zero dimensions are all present. Then box i has prediction i's label and its rectangle scaled by element size over native size on each axis |
| App.InlineAgreesWithViewer | frontend/src/App.jsx:194-203 | where both render, the inline renderer and the image viewer place box i identically |
| App.InlineRefusesWhereViewerFallsBack | frontend/src/App.jsx:190 | without dimensions the inline renderer draws nothing while the image viewer draws at scale 1 |
| App.IntakeKeepsIdsFresh | frontend/src/App.jsx:76-100 | after a selection, ids stay distinct and below the next free id |
| App.IntakeKeepsInvariant | frontend/src/App.jsx:100-101 | a selection keeps ids unique and fresh and one preview per file |
| App.RemovalKeepsInvariant | frontend/src/App.jsx:182-184 | a removal keeps ids unique and fresh and one preview per file |
| App.Page.constructor | frontend/src/App.jsx:27-33 | the page starts with no files, previews or results, not loading, with no error and no selection |
| App.Page.FileSelect | frontend/src/App.jsx:38-102 | accepted files and their previews are appended after the existing ones in selection order. The error becomes the rejections joined by a space, else the last duplicate notice, else stays. Ids stay unique and fresh |
| App.Page.Predict | frontend/src/App.jsx:104-172 | with no files, only the error "Please select files to analyze." is set. Otherwise, whatever the order in which requests complete, the results end as each file's finished entry in selection order, the first is selected, and nothing is loading |
| App.Page.RemoveFile | frontend/src/App.jsx:182-187 | the id is filtered out of files, previews and results, and the selection is cleared whichever file was selected |
| App.Page.Reanalyze | frontend/src/App.jsx:351-355 | files, previews and results are emptied and the selection cleared |

## Left out

- Network, foreign libraries and the file system are not executed. They appear as parameters holding their outcome:
  - `fetch`;
  - `get_predictions` and its `requests.post`;
  - the Gemini call;
  - `convert_dicom_to_png` and `Image.open`;
  - cornerstone's `enable`, `loadImage` and `displayImage`;
  - `measureText`.

  The server's temporary and static directories are a value holding two sets of paths.
- `backend/main.py`, `backend/app/services/dicom_service.py`, `frontend/src/components/DiagnosticReport.jsx` and `frontend/src/components/react-zoom-pan-pinch.jsx` are not part of this model. They are app wiring, the hourly clean-up timer, image decoding, a show/hide toggle with a Blob download, and a pan/zoom library's settings.
- The `/health` endpoint is not modelled; it returns a constant.
- Ids: uuids are modelled as a counter (`nextId`) that only increases. The page operations rely only on ids being distinct and never reused. The counter's consecutive values are a property of this stand-in, not of `uuidv4`.
- Concurrency: the requests of a batch are independent. The model takes the order in which they complete as a parameter and proves the final results do not depend on it. The intermediate renders while a batch runs are not modelled.
- App.Page.Predict: assumes no other page action runs while a batch is in flight. A removal, a new selection or Reanalyze during the batch is not modelled. In the code, removing the first file mid-batch drops its entry from `processingResults`, while `selectedResult` still becomes that file's result (App.jsx:165-168), so "the first result is selected" would no longer hold.
- Timers: the one-second timeout that clears the duplicate notice and `handleCloseError` are not modelled. After a selection, the error is the last value the handler sets.
- `FileReader` previews are not modelled. That branch is unreachable because no image extension passes the check (`App.ScanSelection` proves it dead).
- The endpoint's `png`/`jpg`/`jpeg` branch is not modelled. It is unreachable because both extension lists are `["dcm", "rvg"]` (`Routes.Predict` proves it dead).
- UI handlers that only pick what is shown are not modelled: clicking a preview or a result card to select it, the Snackbar, the report download, styling. So is `window.location.reload()` after Reanalyze, and the cleanup that disables cornerstone.
- Text.Lower: only ASCII letters are lower-cased. JavaScript `toLowerCase` and Python `lower` also map other alphabets.
- Report.GenerateReport: the `:.2%` formatting of the confidence is a parameter `percent`, because float formatting is outside the model.
- Detection.LabelText: the percentage is `Math.round` on exact reals, not on IEEE doubles, and so is `JsRound`.
- DicomViewer.DrawOverlay: requires positive image dimensions whenever there is something to draw. The code divides without a guard and would draw at NaN or Infinity, which reals cannot express. With nothing to draw the scale is never used.
- DicomViewer.Viewer.Mount: inherits that requirement only on the path that draws (initialised, loaded, with a context and a non-empty prediction list).
- ImageOverlay.OnImageLoad: requires a non-zero natural width. The code divides by it without a guard, and an image that loaded has a positive natural width.
- Nms.ApplyNms: `np.argsort(...)[::-1]` is the parameter `order`, required to be a descending confidence order. The order among equal confidences is unspecified, as with numpy's default sort. `Nms.SortByConfidence` computes one such order.
- Numbers are exact reals throughout: no float rounding, no NaN, no Infinity.
