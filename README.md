# Civic complaint platform: a verified model of its core rules

This project models, in Dafny, the rules at the centre of a civic-complaint
platform. Citizens photograph problems such as potholes or open manholes. Two
services classify the photograph, and a backend stores complaints, upvotes,
reports and moderation state. A mobile client polls for status changes.

It has nine modules, one per concern:

- `Wrappers` and `Http` (`wrappers.dfy`) hold `Option` and the handler reply `Reply<T>`. A reply is `Ok(value)` or `Err(status, message)`. `Ok` is HTTP 200, except where a handler's doc comment says 201.
- `Strings` (`strings.dfy`) holds JavaScript's `trim` with its whitespace set (it removes exactly the leading and trailing whitespace), Python's `startswith` and `in`, and decimal rendering of naturals.
- `JsonExtract` (`json_extract.dfy`) is the OpenRouter service's `extract_json_from_response`. It takes the first-`{`/last-`}` span, or else the first-`[`/last-`]` span. The JSON decoder is a parameter.
- `LlmReconcile` (`llm_reconcile.dfy`) is the rest of `detect_with_llm`:
  - upload checks
  - the category name-to-id index
  - confidence normalisation, `max(0, min(100, int(float(x))))`
  - the closed-set label rule, where an unknown label becomes "No Issue"
  - the error replies
- `DetectionAggregate` (`detection_aggregate.dfy`) is the aggregation body of `detect` in the object-detection service. It is a method with two loops, proved equal to a specification function.
- `Moderation` (`moderation.dfy`) covers the strike, ban and unban handlers and the two moderation queries. They are a class over the users table with its Citizen profiles.
- `Complaints` (`complaints.dfy`) covers:
  - status updates
  - upvotes, one per citizen, where the counter stays equal to the number of upvote rows
  - reports, one per reporter and complaint
  - report review status
  - creating and deleting categories

  They are a class over the tables, beside the pure allow-list and trim rules.
- `Notifications` (`notifications.dfy`) covers the client's polling diff, as a loop method proved against functions, and the bounded, newest-first notification history with read flags.

Where the code and its design notes disagree, the model follows the code:

- **"No Issue" category.** If the caller's categories include one named "No Issue", a "No Issue" label resolves to that category's id, not to a null id.
- **Detection confidence.** The object detector's confidence is a percentage rounded to two decimals, not an integer. It is modelled in hundredths of a percent.
- **The `closed` status.** The status allow-list admits `closed`, but the stored enum does not. Such an update fails with a server error (500) and changes nothing.

## Model

| member | source | states |
|---|---|---|
| JsonExtract.Find | openrouter-service/openrouter_service.py:32 | `find` gives the first position holding the character; `None` exactly when the character is absent |
| JsonExtract.RFind | openrouter-service/openrouter_service.py:33 | `rfind` gives the last position holding the character; `None` exactly when the character is absent |
| JsonExtract.Span | openrouter-service/openrouter_service.py:32-34 | the span chosen is the first opener with the last closer; there is none exactly when no opener precedes a closer |
| JsonExtract.OuterSpanUnique | openrouter-service/openrouter_service.py:32-34 | any first-opener/last-closer span is the one the extractor uses |
| JsonExtract.ObjectSpanDecides | openrouter-service/openrouter_service.py:31-35 | when the first `{` precedes the last `}`, the result is the decoding of exactly that inclusive span |
| JsonExtract.NoArrayFallbackAfterObject | openrouter-service/openrouter_service.py:34-45 | a `{`...`}` span that fails to decode gives `None`; the array span is not tried |
| JsonExtract.ArraySpanWhenNoObject | openrouter-service/openrouter_service.py:37-41 | without `{` before `}`, the result is the decoding of the `[`...`]` span |
| JsonExtract.NoSpanNoValue | openrouter-service/openrouter_service.py:42-45 | with neither kind of pair the result is `None`, whatever the decoder |
| JsonExtract.Extract | openrouter-service/openrouter_service.py:28-45 | a value is only ever the decoding of the first-`{`/last-`}` span, or, when no `{` precedes a `}`, of the first-`[`/last-`]` span |
| JsonExtract.EmbeddedObject | openrouter-service/openrouter_service.py:28-35 | an object embedded in prose free of braces is recovered exactly |
| LlmReconcile.BuildIndex | openrouter-service/openrouter_service.py:91 | every category name is a key; a repeated name maps to the id of its last entry |
| LlmReconcile.IndexKeys | openrouter-service/openrouter_service.py:91 | the index keys are exactly the category names |
| LlmReconcile.ToFloat | openrouter-service/openrouter_service.py:145 | `float()` of a number is that number, of a boolean 1 or 0, of a string the string parser's result, and fails on null, lists and objects |
| LlmReconcile.TruncateTowardZero | openrouter-service/openrouter_service.py:145 | `int()` of a real rounds toward zero, stated by floor and ceiling bounds per sign |
| LlmReconcile.Clamp | openrouter-service/openrouter_service.py:149 | the result is in [0, 100], and it is the input when the input is in range |
| LlmReconcile.NormalizeConfidence | openrouter-service/openrouter_service.py:143-149 | the result is in [0, 100]; a missing, null, list, object or non-finite confidence gives 0; a finite number or parsable string is truncated then clamped; booleans count as 1 and 0 |
| LlmReconcile.ReconcileLabel | openrouter-service/openrouter_service.py:152-161 | a list or dict label fails (unhashable); otherwise the label is an index key or "No Issue"; an id is present exactly for a string label that is a key, and it is that key's id |
| LlmReconcile.Truthy | openrouter-service/openrouter_service.py:139 | Python truthiness: false exactly for null, `False`, `0`, the empty string, list and object |
| LlmReconcile.Resolve | openrouter-service/openrouter_service.py:136-170 | no extracted value gives a 500 invalid-JSON failure; every failure is a 500; it resolves exactly when the value is an object with a hashable `"label"`, and then to the reconciled label with the normalised confidence |
| LlmReconcile.CheckUpload | openrouter-service/openrouter_service.py:79-84 | a non-`image/` type, then an oversize body (over 5 MiB), are rejected in that order; otherwise the upload passes |
| LlmReconcile.DetectWithLlmAsWritten | openrouter-service/openrouter_service.py:77-84 | as written: a rejected upload surfaces as status 500; otherwise the result is the reconciliation of the reply |
| LlmReconcile.DetectWithLlm | openrouter-service/openrouter_service.py:77-170 | a rejected upload is a 400; otherwise the same as the code as written |
| LlmReconcile.ResolvedLabelIsClosed | openrouter-service/openrouter_service.py:143-167 | a resolved label is a supplied category name or "No Issue"; its id is that of the last category with that name; no id only for "No Issue"; the confidence is in [0, 100] |
| LlmReconcile.NoLabelIsHardFailure | openrouter-service/openrouter_service.py:139-140 | no extracted value, an empty object or an object without `"label"` is a 500, never a "No Issue" fallback |
| LlmReconcile.UploadCheckedFirst | openrouter-service/openrouter_service.py:79-84 | a bad upload gives the same 400 failure whatever the reply, decoder or categories |
| LlmReconcile.NonImageGetsServerError | openrouter-service/openrouter_service.py:79-80 | a `text/plain` upload: 500 as written, 400 corrected |
| LlmReconcile.PotholeReplyExtracts | openrouter-service/openrouter_service.py:28-35 | the object is recovered from the reply `here you go: {"label":"Pothole","confidence":80} thanks` |
| LlmReconcile.PotholeEndToEnd | openrouter-service/openrouter_service.py:136-167 | that reply, with category Pothole = 1 and a JPEG upload, resolves to id 1, label "Pothole", confidence 80 |
| LlmReconcile.ReconcileExamples | openrouter-service/openrouter_service.py:151-161 | a known label keeps its id; an unknown one and "No Issue" resolve to "No Issue" without an id |
| DetectionAggregate.RoundHalfEven | ai-service/ai_service.py:26 | the integer is within one half of the input, strictly unless the input lies halfway between two integers, and then it is the even one; non-negative for a non-negative input |
| DetectionAggregate.Percent | ai-service/ai_service.py:26 | the confidence in hundredths of a percent is within a half-unit of `conf * 10000`, and in [0, 10000] for a confidence in [0, 1] |
| DetectionAggregate.PotholeDetections | ai-service/ai_service.py:22-27 | one "Pothole" record per box, in box order |
| DetectionAggregate.ManholeDetections | ai-service/ai_service.py:32-41 | one record per box not of class `closed_manhole`; no record has that label; each record comes from a box, named through the class table |
| DetectionAggregate.ManholeOrderKept | ai-service/ai_service.py:33-41 | the records of a concatenation are the concatenation of the records, so box order is kept |
| DetectionAggregate.Aggregate | ai-service/ai_service.py:43-46 | the result is never empty |
| DetectionAggregate.Detect | ai-service/ai_service.py:17-46 | the two loops with the `continue` skip and the sentinel compute exactly the aggregate |
| DetectionAggregate.AggregateShape | ai-service/ai_service.py:17-46 | the sentinel appears exactly when no box was kept; otherwise pothole records come first, then manhole records, and the count is pothole boxes plus non-closed manhole boxes |
| DetectionAggregate.RecordsByOrigin | ai-service/ai_service.py:22-41 | the leading records are labelled "Pothole"; every later one comes from a manhole box and is never `closed_manhole` |
| DetectionAggregate.AggregateExample | ai-service/ai_service.py:17-46 | Pothole 0.8, then closed 0.9 and open 0.7, gives Pothole 80.00 then open_manhole 70.00; no boxes give the sentinel |
| Moderation.FindCitizen | backend/src/controllers/moderationController.js:9-26 | the shared guard: 400 without a uid, 404 for an unknown user, 400 for a user without a Citizen profile, each exactly in its case |
| Moderation.Banned | backend/src/controllers/moderationController.js:87-91 | banned now, with the given reason or the default one; strikes and ward kept |
| Moderation.Unbanned | backend/src/controllers/moderationController.js:141-145 | not banned, no ban time or reason; strikes and ward kept |
| Moderation.UnbanUndoesBan | backend/src/controllers/moderationController.js:87-91 | unbanning after banning restores a citizen who was not banned |
| Moderation.ModerationService.AddStrike | backend/src/controllers/moderationController.js:7-55 | guard errors change nothing; otherwise exactly one more strike, `shouldBan` from 5 strikes on, never a ban; ban fields stay consistent |
| Moderation.ModerationService.BanUser | backend/src/controllers/moderationController.js:61-109 | guard errors and "already banned" change nothing; otherwise only that citizen's ban fields are set |
| Moderation.ModerationService.UnbanUser | backend/src/controllers/moderationController.js:115-162 | guard errors and "not currently banned" change nothing; otherwise the ban fields are cleared and the strikes kept |
| Moderation.ModerationService.GetUserModerationInfo | backend/src/controllers/moderationController.js:168-206 | fails exactly when the guard does; otherwise reports that user's Citizen fields |
| Moderation.ModerationService.GetMyModerationInfo | backend/src/controllers/moderationController.js:252-312 | 400 without a uid and 404 for an unknown user, exactly; a user without a profile gets zero strikes and not banned |
| Complaints.WithStatus | backend/src/controllers/complaintController.js:529-532 | the new status is set; empty notes keep the old notes; nothing else changes |
| Complaints.CheckReportRequest | backend/src/controllers/complaintController.js:717-746 | the body's complaint id, else the route's; accepted exactly when an id, a reporter and an allowed reason are present; each 400 exactly in its case |
| Strings.Trim | backend/src/controllers/complaintController.js:137 | the result is the input with exactly its leading and trailing whitespace removed, and neither starts nor ends with whitespace |
| Strings.StripsToIsTrim | backend/src/controllers/complaintController.js:137 | any removal of exactly the leading and trailing whitespace is the trim, so the trim is the one such result |
| Strings.TrimEmptyIff | backend/src/controllers/complaintController.js:133 | the trim is empty exactly when the string is all whitespace |
| Complaints.CategoryName | backend/src/controllers/complaintController.js:133-137 | none exactly when the name is all whitespace; otherwise the name with exactly its leading and trailing whitespace removed, non-empty |
| Complaints.CategoryNameIdempotent | backend/src/controllers/complaintController.js:137 | a stored name trims to itself |
| Complaints.ComplaintStore.UpdateComplaintStatus | backend/src/controllers/complaintController.js:500-544 | 400 off the allow-list, 404 for an unknown complaint, 500 for `closed`; success exactly when none of these holds; failures change nothing; success replaces only that complaint |
| Complaints.ComplaintStore.UpvoteComplaint | backend/src/controllers/complaintController.js:643-708 | 400 without a citizen, 404 for an unknown complaint, 400 for a second upvote; success exactly otherwise; success adds one row and one to the counter; counters stay equal to row counts |
| Complaints.ComplaintStore.ReportComplaint | backend/src/controllers/complaintController.js:713-791 | the request errors, then 404, then 400 for a repeated reporter; success whenever none of these holds; success stores one pending report under a fresh id; one report per reporter and complaint |
| Complaints.ComplaintStore.UpdateReportStatus | backend/src/controllers/complaintController.js:844-874 | 400 for a status off the list, 404 for an unknown report; no status leaves the report as is; an empty status is a 500; a listed status on a known report succeeds and sets only that report's status |
| Complaints.ComplaintStore.CreateCategory | backend/src/controllers/complaintController.js:129-149 | 400 for a blank name, 409 for a taken trimmed name; success exactly otherwise, storing the trimmed name under a fresh id; names stay unique |
| Complaints.ComplaintStore.ComplaintsUsing | backend/src/controllers/complaintController.js:159 | exactly the ids of the complaints filed under the category |
| Complaints.ComplaintStore.DeleteCategory | backend/src/controllers/complaintController.js:154-188 | refused with the complaint count while complaints use it; otherwise the department links go, then a 404 or the deletion |
| Notifications.StatusesOf | frontend/src/context/NotificationContext.js:92-96 | every fetched id is a key, with the status of its last occurrence |
| Notifications.StatusKeys | frontend/src/context/NotificationContext.js:92-96 | the new statuses hold exactly the fetched ids |
| Notifications.LastChangedIndex | frontend/src/context/NotificationContext.js:93-103 | the last changed complaint in fetch order, and none when none changed |
| Notifications.DiffStatuses | frontend/src/context/NotificationContext.js:92-103 | the `forEach` loop computes exactly the new statuses and the last changed complaint |
| Notifications.MergeStatuses | frontend/src/context/NotificationContext.js:106-107 | fetched statuses win; stored entries for complaints not fetched are kept |
| Notifications.ReadableStatus | frontend/src/context/NotificationContext.js:116-123 | the readable name of a known status, else the raw status |
| Notifications.NotificationFor | frontend/src/context/NotificationContext.js:125-133 | unread, titled "Status Update", carries the complaint, and the message names the id and the readable status |
| Notifications.MessageNamesComplaint | frontend/src/context/NotificationContext.js:129 | the complaint id can be read back from the message |
| Notifications.AddToHistory | frontend/src/context/NotificationContext.js:54-58 | the new notification first, then the older entries in order, at most 50 |
| Notifications.HistoryKeepsNewest | frontend/src/context/NotificationContext.js:55 | adding notifications one by one keeps exactly the 50 newest, newest first |
| Notifications.MarkAsRead | frontend/src/context/NotificationContext.js:189-195 | same length and order; only entries with the id become read |
| Notifications.MarkAllAsRead | frontend/src/context/NotificationContext.js:197-201 | same length and order; every entry read, nothing else changed |
| Notifications.MarkAsReadIdempotent | frontend/src/context/NotificationContext.js:190-192 | marking twice is marking once |
| Notifications.MarkAllAbsorbsMark | frontend/src/context/NotificationContext.js:190-198 | marking all after marking one is marking all |
| Notifications.MarkAllClearsUnread | frontend/src/context/NotificationContext.js:198 | afterwards nothing is unread |
| Notifications.MarkAsReadCount | frontend/src/context/NotificationContext.js:190-192 | the unread count drops by the unread entries with that id |
| Notifications.FirstSeenNeverChanged | frontend/src/context/NotificationContext.js:99 | complaints with no known status never count as changed |
| Notifications.Poll | frontend/src/context/NotificationContext.js:92-136 | stored statuses become the merge; a notification is shown and added to the history exactly when a complaint changed |
| Notifications.PollAsWritten | frontend/src/context/NotificationContext.js:147-158 | as the interval's callback runs it: no notification is ever shown and the history is unchanged; the stored statuses still become the merge |
| Notifications.PollCorrected | frontend/src/context/NotificationContext.js:92-136 | diffing against the statuses stored so far: a notification is shown exactly when some fetched complaint changed, for the last such one, and it heads the history; otherwise the history is unchanged; the stored statuses become the merge |
| Notifications.StaleStatusesMissChange | frontend/src/context/NotificationContext.js:95-103 | pending to accepted: silent as written, "Complaint #1 is now Accepted" corrected |
| Notifications.RepeatPollQuiet | frontend/src/context/NotificationContext.js:99-107 | with distinct ids, polling the same fetch again after a corrected poll raises nothing |

## Left out

- The vision model call and its prompt (openrouter_service.py:86-134), the `/generate` endpoints, the YOLO models and PIL decoding are left out. They are foreign calls; their outputs (reply text, boxes) are inputs.
- Floating point is not modelled: confidences are exact reals. `Percent` rounds `conf * 10000` half to even, which is only close to Python's `round(x * 100, 2)` on binary floats.
- `json.loads` and `float(str)` are parameters, not reimplemented. Python's acceptance of `NaN`/`Infinity` is `Num.NonFinite`.
- Parsing of the `categories` form field (openrouter_service.py:89-91) is left out. A malformed list is a 500 that the model does not produce; `cats` is an already decoded list of `{id, name}`. The same holds for a missing `content_type`.
- DetectionAggregate.Detect: requires that every manhole class index is in the class table; the code would raise `KeyError` (a crash of the request), which the model does not represent.
- The other moderation and complaint handlers are left out: `getBannedUsers`, `getCategories`, complaint creation and listing, authority companies, `deleteComplaint` and recommendations. They are queries or outside the modelled core.
- Transactions, rollback and the unique-constraint race in `upvoteComplaint` (lines 677-686) are left out, as is each handler's generic `catch` 500 for database failures. Handlers run atomically on in-memory tables.
- Request values that are not strings (a number where a name is expected, so `trim` throws) are left out. An absent or falsy request string is `""`; an absent id is `0`, since auto-increment ids are positive.
- Notifications: AsyncStorage persistence, the 30-second timer, the toast animation and navigation are left out. So are the `userData` lookup and the HTTP fetch, whose result is the `fetched` list. `uniqId` and `timestamp` (clock readings) are parameters. A status that JavaScript gives an object-prototype name such as `constructor` is not modelled.
- Notifications.PollAsWritten: the stale first-render `history` the callback also captures is not modelled. It only matters once a notification is raised, which the as-written poll never does.
- Moderation.ModerationService.AddStrike: the `reason` is only logged; the model accepts it and ignores it.

## Findings

| source | as written | input that shows it | evidently intended | confidence | as-written member | corrected member |
|---|---|---|---|---|---|---|
| openrouter-service/openrouter_service.py:77-170 | the 400 `HTTPException` for a non-image or oversize upload is raised inside the `try`, and `except Exception` turns it into a 500 | an upload with content type `text/plain` | reply 400 "File must be an image" | not executed; high (FastAPI's `HTTPException` is an `Exception`) | LlmReconcile.DetectWithLlmAsWritten, LlmReconcile.NonImageGetsServerError | LlmReconcile.DetectWithLlm, LlmReconcile.UploadCheckedFirst |
| frontend/src/context/NotificationContext.js:147-158 | the interval runs the `fetchComplaints` of the first render, whose `lastStatuses` is the initial `{}`, so no complaint ever counts as changed | stored statuses `{1: "pending"}`, fetch `[{id: 1, currentStatus: "accepted"}]` | a "Complaint #1 is now Accepted" notification | not executed; high (a `[]`-dependency effect keeps its first closure) | Notifications.PollAsWritten, Notifications.StaleStatusesMissChange | Notifications.PollCorrected, Notifications.RepeatPollQuiet |
