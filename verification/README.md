# Pothole detector backend — verified model of its decision logic

This project models the pure decision and text functions of the pothole
detector's Python backend in Dafny and proves what they promise:

- **Request gatekeeping** (`api/app.py`):
  - the per-client sliding-window rate limiter (100 requests per hour);
  - the standard JSON response envelope;
  - start-up configuration validation;
  - clean-up of the reporter's name and e-mail.
- **Detection classification** (`api/app.py`): severity from the relative
  diagonal of a bounding box, and the map marker drawn for a severity.
- **The AI description retry policy** (`api/app.py`). This covers:
  - up to three model calls, first to the primary model, then to the fallback;
  - error classification by message;
  - exponential back-off after overloads;
  - the status code of each outcome.
- **The e-mail report** (`api/email_service.py`):
  - the summary statistics, the location line and the Google Maps cell;
  - the detection table;
  - the image grid and the inline attachments with their Content-IDs;
  - base64 padding repair.
- **The deployment check's base URL normalisation** (`test_railway_gemini.py`).

Modules, one per file:

| file | module | what it holds |
|---|---|---|
| wrappers.dfy | `Wrappers` | `Option` and `Result` |
| text.dfy | `Text` | Python string operations used by the source |
| rate_limit.dfy | `RateLimit` | the rate limiter |
| api_response.dfy | `ApiResponse` | the response envelope |
| config.dfy | `ConfigCheck` | configuration validation |
| sanitize.dfy | `Sanitize` | name and e-mail clean-up |
| detection.dfy | `Detection` | severity and map marker |
| description.dfy | `Description` | the retry policy |
| report_data.dfy | `ReportData` | the report input |
| report_summary.dfy | `ReportSummary` | statistics and location cells |
| detection_table.dfy | `DetectionTable` | the detection table |
| inline_images.dfy | `InlineImages` | image grid and attachments |
| base_url.dfy | `BaseUrl` | base URL normalisation |

Text operations follow Python:
- `strip()` uses the code points of `str.isspace`.
- `s[:n]`, `rstrip('/')`, `startswith`, `endswith` and `in` keep their Python meaning.

External facts become parameters of the functions that need them:
- the clock;
- whether the model file exists;
- the outcomes of the language-model calls;
- base64 decoding;
- image-type recognition;
- float-to-text formatting.

## Model

| member | source | states |
|---|---|---|
| RateLimit.CheckRateLimit | api/app.py:214-230 | The checked client's history is pruned to times less than 3600 s old, even on a refusal. The request is allowed exactly when fewer than 100 times remain, and then exactly `now` is appended. Other clients are untouched. An allowed client never stores more than 100 times. |
| RateLimit.Recent | api/app.py:219-222 | The pruned history holds exactly the times less than 3600 s before `now`, and is no longer than the input. |
| RateLimit.CheckPreservesLimit | api/app.py:225-230 | If no client stores more than 100 times before a check, none does after it. |
| RateLimit.RecentAppend | api/app.py:219-222 | Pruning distributes over concatenation of histories. |
| RateLimit.RecentLater | api/app.py:219-222 | Pruning to an earlier window and then a later one equals pruning to the later one. |
| RateLimit.CheckKeepsHistory | api/app.py:214-230 | One check keeps a client's stored history equal, inside every later window, to the times that were let through, and keeps that count at most 100. |
| RateLimit.ReplayInvariant | api/app.py:214-230 | After any chronological run of requests from an empty table, each client's stored history agrees with the requests let through inside every window ending at or after the last request. |
| RateLimit.RateLimitHolds | api/app.py:214-230 | Whatever the request pattern, no client gets more than 100 requests through in any one-hour window ending at or after the last request. |
| ApiResponse.CreateApiResponse | api/app.py:257-270 | `success`, `timestamp` and `version` ("v1") are always present. On success: `data` (an empty object when missing or falsy), `message` only when given, and never `error` or `code`. On failure: `error` defaults to "Unknown error", `code` defaults to "INTERNAL_ERROR", and there is no `data` or `message`. |
| ConfigCheck.ValidateConfig | api/app.py:157-186 | The corrected validation reports no error exactly when the model path is set and exists, the threshold is a number in [0, 1] and the image size is a positive integer. At most one error per setting, in the order model path, threshold, image size. |
| ConfigCheck.ValidateConfigReportsEachFailure | api/app.py:161-178 | Each of the six messages is reported exactly when its own check fails: a missing path, a missing file, a non-numeric or out-of-range threshold, and a non-integer or non-positive image size. |
| ConfigCheck.ValidateConfigAsWritten | api/app.py:157-186 | Validation as written accepts exactly the configurations whose threshold is not outside [0, 1] under IEEE comparison, which lets NaN through. Errors are ordered as above. |
| ConfigCheck.ValidationsDifferOnlyOnNaN | api/app.py:168-172 | The written and the corrected validation give different results exactly when the threshold is NaN. |
| ConfigCheck.NaNThresholdAcceptedAsWritten | api/app.py:169-170 | A NaN threshold with a valid path and image size passes as written but is out of range in the corrected validation. |
| ConfigCheck.ParsedSettingsNeverNonNumeric | api/app.py:66-70 | For settings parsed from the environment, always a float and an integer, neither validation ever reports "must be a valid number" or "must be a valid integer". |
| ConfigCheck.ConcatOrdered | api/app.py:159-178 | Appending the three per-setting error lists keeps the errors ordered by setting. |
| Sanitize.Truncate | api/app.py:588-590 | `s[:n]` is the prefix of `s` of length `min(len(s), n)`. |
| Sanitize.SanitizeField | api/app.py:583-590 | A missing field takes its default. The result is a prefix of the stripped value, at most 100 characters long, the whole stripped value when that fits, and never starts with whitespace. |
| Sanitize.SanitizeKeepsCleanShortValue | api/app.py:587-590 | A value of at most 100 characters without whitespace at either end is kept unchanged. |
| Sanitize.TruncationCanExposeTrailingSpace | api/app.py:588-590 | Stripping before cutting can leave whitespace at the end: whenever the stripped value is longer than 100 characters and its 100th character is whitespace, the result is 100 characters long and ends in that whitespace. |
| Sanitize.TrailingSpaceExample | api/app.py:588-590 | Such values exist: 99 letters, a space and a letter sanitise to a value ending in the space. |
| Detection.ClassifySeverity | api/app.py:290-296 | Low exactly below 0.20, Medium exactly in [0.20, 0.50), High exactly from 0.50 on. |
| Detection.ClassifyMonotone | api/app.py:290-296 | A larger relative diagonal never gets a lower severity. |
| Detection.MarkerStyleFor | api/app.py:324-333 | "High" gives red `ff0000` size `l`, "Medium" gives orange `ffaa00` size `m`, and any other label gives green `00ff00` size `s`. |
| Detection.MarkerFollowsSeverity | api/app.py:324-333 | Pin size orders like severity (both directions). Distinct severities get distinct colours. An unknown label is drawn like Low. |
| Detection.Marker | api/app.py:337 | The overlay is exactly `pin-{size}+{color}` of the label's style followed by `({lng},{lat})`, with nothing in between. |
| Detection.StaticMapUrl | api/app.py:319-341 | There is no request without a Mapbox token. Otherwise the URL starts with the static-map base and the marker and ends with the access token. |
| Description.ModelFor | api/app.py:889-897 | Attempt 0 uses the primary model. Later attempts use the fallback model exactly when one is configured. |
| Description.ClassifyErrorByKeywords | api/app.py:919-962 | On the lower-cased message, "503" or "overloaded" means overload. Otherwise "timeout" means a timeout. Otherwise "quota" or "limit" means quota. Anything else is a generic error. |
| Description.FailureAnswer | api/app.py:929-962 | A failure that ends the loop gives an error response: an overload gives 503 "overloaded", a timeout 408 "timeout", a quota error 429 "quota_exceeded", and any other error 500 "generation_failed" with "AI description generation failed: " followed by the error's own text. |
| Description.GenerateDescription | api/app.py:803-968 | A disabled model gives 503, and a missing or unnamed image gives 400, all before any call. Otherwise the loop makes 1 to 3 calls with one pause between consecutive calls. It continues only after outcomes that are neither a success, a timeout nor a quota error. It describes exactly when the last call succeeded, and reports that call's number as the attempt. |
| Description.StopIndex | api/app.py:884-962 | The loop stops at the first success, timeout or quota error, and at the third attempt at the latest. |
| Description.AttemptFromMatchesPolicy | api/app.py:884-962 | The attempt loop from any attempt on equals the declarative policy: the answer of the stopping outcome, that many calls, and the pause schedule. |
| Description.GenerateDescriptionMatchesPolicy | api/app.py:884-962 | Once the request checks pass, the endpoint's run equals the declarative policy: the stopping attempt, the answer of its outcome, and pauses of 2, 4, … seconds after overloads and 1 s after other retried errors. |
| Description.SuccessReportsAttempt | api/app.py:903-912 | A success after k non-final failures is reported as attempt k + 1, with the stripped text and the model used on that attempt. |
| Description.StopsAtFirstFinal | api/app.py:884-962 | The loop's stopping attempt is the first final outcome. |
| Description.NonRetryableErrorsStopAtOnce | api/app.py:936-948 | A timeout stops the loop at once with 408, and a quota error with 429. |
| Description.PersistentOverloadBacksOff | api/app.py:922-934 | Three overloads in a row sleep 2 s and then 4 s, and end with 503 "overloaded". |
| Description.GenericErrorOnLastAttemptFails | api/app.py:950-962 | After two retried failures, an unclassified error on the third attempt ends with 500, "generation_failed" and the error's text, after three calls and the two pauses of the policy. |
| Description.TotalPauseBounded | api/app.py:877-878 | At most two pauses, each of 1, 2 or 4 seconds, adding up to at most 6 seconds. |
| ReportData.InFlatten | api/email_service.py:136-137 | A detection is visited by the statistics loop exactly when some image lists it. |
| ReportSummary.TotalDetections | api/email_service.py:132 | The total is the number of detections over all images, and 0 exactly when every image's list is empty. |
| ReportSummary.HighestFromByPresence | api/email_service.py:133-145 | The running maximum by level (High 3, Medium 2, anything else 1) equals the presence rule applied to the start value followed by the detections: "High" if any says High, else "Medium" if any says Medium, else "Low". |
| ReportSummary.HighestSeverityIsMaximum | api/email_service.py:133-145 | The highest severity is always "Low", "Medium" or "High", and is "Low" without detections. It is the most severe label that occurs, and unknown labels are never chosen. |
| ReportSummary.MaxFrom | api/email_service.py:134-140 | The running maximum is at least its start and every confidence, and is the start or one of the confidences. |
| ReportSummary.MaxConfidence | api/email_service.py:134-140 | The maximum confidence is at least 0 and at least every detection's confidence, and is 0 or some detection's confidence. |
| ReportSummary.MaxConfidenceZero | api/email_service.py:134-140 | With no positive confidence the maximum is 0. |
| ReportSummary.SummaryIgnoresOrder | api/email_service.py:131-145 | Total, highest severity and maximum confidence do not depend on how detections are ordered or grouped into images. |
| ReportSummary.LocationText | api/email_service.py:148-157 | "Location not available" unless both coordinates are present. Otherwise the two coordinates to six decimals, followed by " - " and the address exactly when the address is non-empty. |
| ReportSummary.GoogleMapsLink | api/email_service.py:328-341 | No location gives "Location not available". A missing coordinate gives "Coordinates not available". Otherwise the result is a link to `https://www.google.com/maps?q={lat},{lng}`. |
| ReportSummary.LocationCellsAgree | api/email_service.py:148-157 | The location line and the map cell agree: the same text without a location, and a link exactly when the line shows coordinates. |
| DetectionTable.DetectionTable | api/email_service.py:260-312 | The single "no potholes" message exactly when no image has a detection (no images included). Otherwise exactly the rows of all images, sum over images of `max(1, len)` of them. |
| DetectionTable.ImageRows | api/email_service.py:280-305 | An image contributes one row per detection, or one row when it has none. |
| DetectionTable.AllRowsCount | api/email_service.py:280-305 | The row count is the sum over images of `max(1, len)`. |
| DetectionTable.RowsInInputOrder | api/email_service.py:280-305 | The row for detection j of image i sits right after the earlier images' rows. It is numbered `#i+1`/`#j+1` and carries the title-cased type ("Pothole" by default), the severity ("Medium" by default) with its lower-case CSS class, and confidence and size times 100. An image without detections has its one row there. |
| DetectionTable.EarlierRowsKept | api/email_service.py:280-305 | Adding an image leaves the earlier rows in place. |
| DetectionTable.LastImageRows | api/email_service.py:280-305 | The last image's rows follow all earlier rows. |
| DetectionTable.RowImagesInRange | api/email_service.py:291 | Image numbers in the table run from 1 to the number of images. |
| DetectionTable.RowsSorted | api/email_service.py:280-305 | Rows are strictly ordered by (image number, detection number), so no row repeats. |
| DetectionTable.MissingSeverityShownDifferently | api/email_service.py:142-145 | A detection without a severity is counted as "Low" by the summary (line 142) but shown as "Medium" in its table row (line 283). So a report with just that detection says "Low" above a "Medium" row. |
| DetectionTable.DetectionRowCountAppend | api/email_service.py:280-305 | Detection rows of two row blocks add up. |
| DetectionTable.ImageDetectionRows | api/email_service.py:281-298 | An image with detections contributes only detection rows. |
| DetectionTable.DetectionRowsMatchTotal | api/email_service.py:132 | The table has exactly as many detection rows as the summary's total. |
| InlineImages.FixBase64Padding | api/email_service.py:402-407 | The input followed only by '=' characters, fewer than four of them, to a length divisible by 4. An input whose length is already a multiple of 4 is unchanged. |
| InlineImages.FixBase64PaddingIdempotent | api/email_service.py:404-407 | Repairing the padding twice equals repairing it once. |
| InlineImages.ContentNameInjective | api/email_service.py:384 | Different positions get different Content-ID names. |
| InlineImages.ImageGrid | api/email_service.py:314-326 | One grid item per entry, skipped or not, titled "Image n" and referring to `cid:image_n`. |
| InlineImages.GridSourcesDistinct | api/email_service.py:318-322 | No two grid items refer to the same Content-ID. |
| InlineImages.AfterFirstComma | api/email_service.py:357 | `split(',', 1)` fails exactly when there is no comma. Otherwise the result is the text after the first comma. |
| InlineImages.DecodeEntry | api/email_service.py:346-377 | The entry's payload is the padded base64 part (after the comma of a `data:image` URI, otherwise the whole entry), decoded. An empty entry is skipped as empty. Otherwise a payload that does not decode is skipped as undecodable, and one under 100 bytes as too small. Any other payload is returned as the entry's bytes. |
| InlineImages.AttachImages | api/email_service.py:343-400 | An entry is attached exactly when it is non-empty, decodes to at least 100 bytes and is recognised as an image. Each attachment has Content-ID `<image_{i+1}>` for its own position i, even after skipped entries. Attachments keep entry order. |
| InlineImages.AttachFirst | api/email_service.py:345-400 | The same for the first n entries. |
| InlineImages.AttachmentsMatchGrid | api/email_service.py:322-384 | Every attachment is referenced by exactly one grid item, the one at its own position. |
| InlineImages.UsableEntriesAttached | api/email_service.py:345-392 | A non-empty entry whose payload decodes to at least 100 bytes of a recognised image is attached, under Content-ID `<image_{i+1}>` for its position i and with those bytes. |
| InlineImages.SkippedEntries | api/email_service.py:348-377 | Empty entries and payloads under 100 bytes are never attached. |
| BaseUrl.NormalizeBaseUrl | test_railway_gemini.py:157-166 | The result always starts with "http" and ends with "/api/v1". |
| BaseUrl.NormalizeKeepsAddress | test_railway_gemini.py:157-166 | The result starts with the argument minus its trailing slashes, preceded by "https://" exactly when that does not start with "http". At most the scheme and the suffix are added. |
| BaseUrl.NormalizeFixedPoint | test_railway_gemini.py:157-166 | An argument that starts with "http" and ends with "/api/v1" is returned unchanged. |
| BaseUrl.NormalizeIdempotent | test_railway_gemini.py:157-166 | Normalising twice equals normalising once. |
| BaseUrl.SlashJoinOnlyWithoutHost | test_railway_gemini.py:157-166 | The scheme-prefixed address ends in '/' exactly when the argument was empty or all slashes. Only then is "api/v1" joined without a slash. |
| BaseUrl.OnlySlashes | test_railway_gemini.py:157-166 | An empty or all-slash argument yields "https://api/v1". |
| BaseUrl.BaseUrlFromArgs | test_railway_gemini.py:150-166 | A URL exactly when one argument follows the program name, and then its normalisation. |
| Text.Strip | api/app.py:588 | `strip()` returns a slice of its input with only whitespace before and after it, and the slice neither starts nor ends with whitespace. So it removes exactly the leading and trailing whitespace. |
| Text.StripIdempotent | api/app.py:588 | Stripping twice equals stripping once. |
| Text.ContainsAt | api/app.py:922 | Python's `sub in s` holds exactly when `sub` occurs at some position of `s`. |
| Text.Lower | api/app.py:919 | `lower()` keeps the length, maps each ASCII capital to its small letter and keeps every other character. No ASCII capital remains, and a character changes exactly when it is one. |
| Text.LowerIdempotent | api/email_service.py:284 | Lower-casing twice equals lower-casing once. |
| Text.Title | api/email_service.py:287 | `title()` keeps the length. A letter is upper-cased when it starts a word (first character, or after a non-letter) and lower-cased otherwise. Other characters are kept. |
| Text.TitleKeepsWords | api/email_service.py:287 | Title-casing changes only letter case (its lower-cased form is the input's) and is idempotent. |
| Text.NatToString | api/email_service.py:321-322 | `str(n)` is one or more decimal digits with no leading zero. |
| Text.NatToStringRoundTrip | api/email_service.py:321-322 | Reading the digits of `str(n)` back as a decimal number gives `n`. |
| Text.NatToStringInjective | api/email_service.py:384 | Different numbers are written differently, so `image_{i+1}` names never collide. |
| Text.RStripChar | test_railway_gemini.py:157 | `rstrip('/')` removes exactly the trailing slashes: the result is a prefix, only slashes were removed, and it does not end in a slash. |

## Left out

- HTTP routing, CORS, security headers and the `require_api_key` decorator that calls the rate limiter are framework glue.
- RateLimit.CheckRateLimit: takes the time as an integer parameter. The source reads a float clock. Concurrent access to the shared table by several request threads is not modelled: each check is one atomic step.
- ApiResponse.CreateApiResponse: the timestamp is passed in as text, not read from the clock. JSON numbers are reals, so Python's distinction between `0`, `0.0` and `False` reduces to "zero or false is falsy".
- ConfigCheck.ValidateConfig: reading the environment, `os.path.exists`, logging and `sys.exit(1)` are left out. The caller stops when the list is non-empty.
- ConfigCheck.ValidateConfig: the threshold and image size are parsed with `float()` and `int()` when the settings table is built (api/app.py:66-70), before validation runs (api/app.py:188). A value that does not parse raises an uncaught `ValueError` at import, with none of the validation messages. That crash is not modelled. `NotNumeric` and a missing `imageSize` stand for a non-comparable value in the table, which the program itself never stores. They keep the two `except` branches (api/app.py:171-172, 177-178) in the model, and `ParsedSettingsNeverNonNumeric` shows those branches never fire for parsed settings.
- Detection.ClassifySeverity: YOLO inference, the square-root box geometry, the division by the image diagonal and all rounding are left out. The relative diagonal arrives as an exact real, so float rounding near 0.20 and 0.50 is not modelled.
- Detection.StaticMapUrl: states the start and the end of the URL, not the centre, zoom and size segment between them. The Mapbox download and saving the image are I/O and are left out.
- Description.GenerateDescription: the Gemini calls are abstracted as a sequence of at least three outcomes, and `time.sleep` as a recorded list of pauses.
- Description.GenerateDescription: parsing the location JSON and building the prompt are left out. So are image decoding with PIL, the `debug_info` and `generated_at` fields, and the outer handler for exceptions outside the loop. The handler's final "after multiple attempts" response is unreachable, since the last attempt always returns.
- Text.Lower and Text.Title: only ASCII letters change case. Python's Unicode case mapping is not modelled. In `Title`, every non-ASCII character counts as a word break, so `"éa"` becomes `"éA"` where Python gives `"Éa"`, because Python treats `é` as a cased letter that continues the word.
- ReportSummary.MaxConfidence and DetectionTable.DetectionTable: a detection key that is present with value `null` is not modelled. The model only distinguishes a present value from a missing key. In the source:
  - a null `confidence` or `relative_size` raises `TypeError` (api/email_service.py:139, 285-286);
  - a null `severity` or `class` in the table raises `AttributeError` (lines 284 and 287);
  - a null `severity` in the summary raises nothing: it gets level 1 and is never chosen (lines 142-145).
  Each of these exceptions is caught by the sender's handler at line 118, and no e-mail is sent.
- ReportSummary.LocationText and ReportSummary.GoogleMapsLink: the `:.6f` and `str()` float formatting is a parameter of these functions.
- DetectionTable.DetectionTable: the HTML markup and the `:.1f` percentage formatting are not modelled. A row keeps the values it displays.
- InlineImages.ImageGrid: the alt text and styling of each item are not modelled.
- InlineImages.AttachImages: base64 decoding and the MIME layer's image-type recognition are parameters. Building the MIME message and its headers is I/O. `Content-Disposition: inline` is not represented.
- The rest of the e-mail body, SMTP delivery, and the timed clean-up of uploaded files are I/O.
- The deployment check's network tests, which run after the base URL is built, are I/O.

## Findings

| source | as written | input that shows it | evidently intended | confidence | as-written member | corrected member |
|---|---|---|---|---|---|---|
| api/app.py:169-170 | The threshold is rejected only when `x < 0 or x > 1`, and both comparisons are false for NaN. | `CONFIDENCE_THRESHOLD=nan` with a valid model path and image size: no error, and the service starts with a NaN threshold. | Every value outside [0, 1], NaN included, is reported as "CONFIDENCE_THRESHOLD must be between 0 and 1". | high; not executed | ConfigCheck.ValidateConfigAsWritten | ConfigCheck.ValidateConfig |
