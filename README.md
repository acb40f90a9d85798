# BatchMail core, modelled in Dafny

BatchMail is a small web application for sending mail in batches. A user uploads a CSV of recipients and maps its columns (recipient, name, optional subject). They then choose an HTML template written in a Jinja-style template language, preview each rendered email, and either export the rendered emails as JSON or have the server send them through a mail transport. The server reports progress as a newline-delimited JSON (NDJSON) stream. Sender credentials come from the environment or from a `.env` file uploaded into an in-memory override store. A request gate keeps every page but the login page behind a session cookie.

This project models that core:

- **`Records`** (`records.dfy`): the shared vocabulary.
  - Rows are maps from column to text. A lookup of an absent column gives `None`, for JavaScript's `undefined`.
  - A mapping field may be `null`.
  - Defines JavaScript truthiness, the eligibility filter (a row with a non-empty recipient value), and the render context with its `name`/`recipient` aliases.
  - The template engine is an opaque function that returns text or fails with a message.
- **`JsText`** (`js_text.dfy`): the JavaScript built-ins the code relies on, with the properties proved about them.
  - String helpers: `trim`, `split`, `indexOf`, `startsWith`, and ASCII case folding for `/i` regular expressions.
  - Array helpers: `find`, and `map` with a callback that may throw.
  - `Set` insertion order.
- **`SendStream`** (`send_stream.dfy`): `POST /api/send/stream`.
  - Request validation and credential resolution.
  - `renderTemplate` with its subject precedence and raw-template fallbacks.
  - The event loop as a method that appends one event per attempt, proved against the specification function `StreamOf`.
  - Ordering, counting and failure-isolation properties of the stream.
- **`Ndjson`** (`ndjson.dfy`): the wire form of the stream.
  - `JSON.stringify` for the four event shapes, each line followed by a line feed.
  - A decoder that splits on line feeds.
  - Proofs that every run's output decodes back to its events.
- **`EnvStore`** (`env_store.dfy`): the module-level override (`setOverrideEnv`, `getOverrideEnv`, `clearOverrideEnv`) as a class with one map field.
- **`EnvUpload`** (`env_upload.dfy`): `POST /api/env/upload`.
  - `parseEnv` as a loop over lines, proved to keep the last value given to each key.
  - Extraction of the three sender keys as a loop.
  - The `missing` list, and the store update.
- **`Middleware`** (`middleware.dfy`): `isPublicPath` and the pass-or-redirect decision.
- **`Login`** (`login.dfy`): `POST /api/auth/login` as its chain of guards, ending in the session cookie.
- **`PreviewPane`** (`preview_pane.dfy`): the preview panel.
  - `renderRow`, the recipient list and the available variables.
  - The `{{ ident }}` scanner, as a loop proved against a specification, and the unknown-variable check.
  - The send body and the send button's state: the sending flag and the five-second cool-down.
- **`HomePage`** (`home_page.dfy`): the main page.
  - The JSON export payload and its subject precedence, which differs from the server's.
  - Tab gating and tooltips.
  - The state the upload panel and the template library change.
- **`CsvUploader`** (`csv_uploader.dfy`): the upload panel.
  - Header guessing.
  - The mapping merged after a parse, and the mapping update when a selection changes.
  - The panel's `csv`/`mapping`/`error` state, as a class.

The template engine and the mail transport are parameters. The engine is `(template, context) -> Result<string>`. The transport is `(attempt index, message) -> Delivered(messageId) | Undelivered(message)`. A property proved for all engines and transports therefore holds whatever the library does.

Two places where the client and the server disagree are stated as lemmas rather than smoothed over:

- `HomePage.MissingSubjectColumnDiverges`: when the subject template is blank and the mapped subject column is absent from a row, the export writes "undefined" but the sent email has an empty subject.
- `HomePage.Export` / `HomePage.ThrowingSubjectIsSentRaw`: a subject template that throws on some row abandons the whole export, yet the server sends that row with the raw template as its subject.

## Model

| member | source | states |
|---|---|---|
| Records.Eligible | app/api/send/stream/route.ts:48 | The kept rows are rows of the input with a non-empty recipient value, and every such row is kept |
| Records.EligibleAppend | app/api/send/stream/route.ts:48 | The filter distributes over concatenation, so rows keep their relative order |
| Records.EligibleIdempotent | app/components/ui/PreviewPane.tsx:138 | Filtering already-filtered rows keeps them all: the server sends every row the client posts |
| Records.AliasedContext | app/api/send/stream/route.ts:11 | The context has every column of the row; `name` and `recipient` are overridden by the mapped columns' values, even when those are undefined |
| JsText.Trim | app/api/env/upload/route.ts:9 | The result is no longer than the input and has no white space at either end |
| JsText.TrimSlice | app/api/env/upload/route.ts:9 | The result is the slice `s[p..q]` of the input, and everything before `p` and after `q` is white space |
| JsText.TrimBlank | app/api/env/upload/route.ts:38 | A string trims to "" exactly when every character is white space |
| JsText.IndexOf | app/api/env/upload/route.ts:11 | -1 exactly when the character is absent; otherwise the position of its first occurrence |
| JsText.JoinSplit | app/api/env/upload/route.ts:8 | Splitting a text on a separator and joining the pieces gives the text back |
| JsText.SplitJoin | app/api/send/stream/route.ts:55 | Joining pieces that are free of the separator, then splitting, gives the pieces back |
| JsText.LowerAscii | middleware.ts:19 | Case folding under `/i` without `u`: same length, each ASCII letter lowered, everything else kept |
| JsText.FindIndex | app/components/ui/CsvUploader.tsx:23-30 | `find`: the first element satisfying the predicate, or none when no element does |
| JsText.MapOrThrow | app/page.tsx:40-47 | `map` with a throwing callback: all results in order when no call throws, otherwise the error of the first call that throws |
| JsText.SetAddAll | app/components/ui/PreviewPane.tsx:93-98 | Adding elements to a `Set`: the earlier elements stay first, new elements are appended only when absent, and no element is duplicated |
| JsText.Dedup | app/components/ui/PreviewPane.tsx:116 | `Array.from(new Set(xs))` holds exactly the elements of `xs`, each once |
| JsText.DedupFirstOccurrence | app/components/ui/PreviewPane.tsx:116 | `Array.from(new Set(xs))` lists the elements in the order of their first occurrence in `xs` |
| SendStream.Validate | app/api/send/stream/route.ts:29-33 | 400 "Invalid JSON" for a body that is not JSON; 400 "Missing required fields" exactly when rows, the mapping or a non-empty template is missing; otherwise the payload carries the body's fields |
| SendStream.Resolve | app/api/send/stream/route.ts:35-41 | Each credential is the non-empty override value, else the environment value; the name falls back to the sender address; the 500 error arises exactly when the address or the password is still empty |
| SendStream.CompleteOverrideWins | app/api/send/stream/route.ts:36-38 | With all three fields in the override, the environment plays no part |
| SendStream.CompleteUploadResolves | app/api/env/upload/route.ts:41-46 | After an upload that reports ok, every run resolves exactly the uploaded credentials, whatever the environment |
| SendStream.RenderTemplate | app/api/send/stream/route.ts:10-21 | The body is the rendered template, or the raw template when rendering throws. The subject is the rendered subject template (raw when it throws), else the non-empty subject column, else "" |
| SendStream.RenderDependsOnContext | app/api/send/stream/route.ts:11-19 | Two rows with the same aliased context and subject column render alike |
| SendStream.MessageFor | app/api/send/stream/route.ts:61 | Each message goes to the row's non-empty recipient value, from "name <address>" |
| SendStream.Attempts | app/api/send/stream/route.ts:57-61 | One attempt per eligible row |
| SendStream.AttemptsAddressed | app/api/send/stream/route.ts:57-61 | Attempt i goes from "name <address>" to the recipient of the i-th eligible row |
| SendStream.CountsAddUp | app/api/send/stream/route.ts:49-51 | Every attempt is counted once, as sent or as failed |
| SendStream.RunStream | app/api/send/stream/route.ts:54-69 | The loop's events are exactly `StreamOf` of the run, and the messages handed to the transport are exactly `Attempts` |
| SendStream.Post | app/api/send/stream/route.ts:27-81 | 400 or 500 with no attempt when validation or credential resolution fails; otherwise the event stream of the run over one snapshot of the store |
| SendStream.StreamShape | app/api/send/stream/route.ts:56-69 | One `start` with the number of eligible rows, then one `item` per attempt with indexes 0..n-1 in row order, each naming that attempt's recipient and subject and carrying what the transport answered to it, then one `done`; no other `start` or `done` |
| SendStream.ItemCountsMatch | app/api/send/stream/route.ts:62-66 | The item events with status sent/error number exactly the delivered/undelivered attempts |
| SendStream.DoneCountsItems | app/api/send/stream/route.ts:50-51 | `done` carries the stream's own counts of sent and error items, and they add up to `total` |
| SendStream.FailureIsolation | app/api/send/stream/route.ts:60-67 | A transport that answers differently at one attempt changes only that item and the closing counts; the item still names the same recipient and subject |
| SendStream.ExampleEligible | app/api/send/stream/route.ts:48 | In a three-row table whose second recipient is empty, only the first and third rows are sent |
| SendStream.ExampleSecondFails | app/api/send/stream/route.ts:56-69 | Three rows with the second refused give start(3), sent, error("refused"), sent, done(2, 1) |
| Ndjson.NatText | app/api/send/stream/route.ts:56 | A count is written as a non-empty run of digits |
| Ndjson.EncodeEvent | app/api/send/stream/route.ts:55 | The JSON text of an event holds no line feed, so one event is one line |
| Ndjson.EscapeRoundTrip | app/api/send/stream/route.ts:55 | The escaped contents of any string read back as that string |
| Ndjson.QuoteRoundTrip | app/api/send/stream/route.ts:55 | A quoted string reads back whole, with what follows it untouched |
| Ndjson.ParseNatText | app/api/send/stream/route.ts:56 | A written count reads back when a non-digit follows it |
| Ndjson.MembersRoundTrip | app/api/send/stream/route.ts:63 | Object members read back in order |
| Ndjson.ObjectRoundTrip | app/api/send/stream/route.ts:63 | An object reads back as its members |
| Ndjson.EventOfMembers | app/api/send/stream/route.ts:56-69 | The object of each event shape describes that event |
| Ndjson.EventRoundTrip | app/api/send/stream/route.ts:55-69 | Every event line decodes to the event |
| Ndjson.DecodeFrame | app/api/send/stream/route.ts:55 | Splitting the framed stream on line feeds and parsing each line gives back the events |
| Ndjson.FrameAppend | app/api/send/stream/route.ts:55 | Framing distributes over concatenation: the stream is written event by event |
| Ndjson.RunDecodes | app/api/send/stream/route.ts:53-72 | The body of every run decodes to that run's events |
| EnvStore.OverrideStore.constructor | app/api/env/store.ts:10 | The store starts empty |
| EnvStore.OverrideStore.Set | app/api/env/store.ts:12-14 | Keys in the argument take its values; other keys keep their presence and values |
| EnvStore.OverrideStore.Get | app/api/env/store.ts:16-18 | Returns a value copy of the store and changes nothing |
| EnvStore.OverrideStore.Clear | app/api/env/store.ts:20-22 | Every key is absent afterwards |
| EnvStore.SetEmptyIsNoop | app/api/env/store.ts:13 | Merging the empty object leaves the store as it was |
| EnvUpload.EntryOf | app/api/env/upload/route.ts:9-15 | A line that is blank after trimming, starts with `#` after trimming, or has no `=` contributes nothing; a line that contributes has a non-empty key that holds no `=` |
| EnvUpload.EntryOfSplitsAtFirstEquals | app/api/env/upload/route.ts:9-15 | A line contributes exactly when its trimmed text is non-empty, does not start with `#`, and has a non-blank key before its first `=`; the key is then the trimmed text before that first `=` and the value the trimmed text after it |
| EnvUpload.EntryRoundTrip | app/api/env/upload/route.ts:11-15 | `KEY=VALUE` with a valid key and a trimmed value parses back to that key and value, even when the value holds `=` |
| EnvUpload.Entries | app/api/env/upload/route.ts:8 | One entry per line, in line order |
| EnvUpload.LastValueAbsent | app/api/env/upload/route.ts:15 | A key has no value exactly when no line defines it |
| EnvUpload.LastValueIsLastEntry | app/api/env/upload/route.ts:15 | A key's value is the one given by a line that defines it |
| EnvUpload.LastValueSnoc | app/api/env/upload/route.ts:15 | A later line that defines a key overrides earlier ones |
| EnvUpload.ReflectsSnoc | app/api/env/upload/route.ts:15 | Applying one more line keeps the dictionary equal to the last values of the lines seen |
| EnvUpload.ParseEnv | app/api/env/upload/route.ts:6-18 | The dictionary holds exactly the keys some line defines, each with the last value given to it |
| EnvUpload.ExtractKnown | app/api/env/upload/route.ts:42-43 | Exactly the three sender keys with non-empty parsed values are extracted, with those values |
| EnvUpload.KnownValues | app/api/env/upload/route.ts:4 | The extracted values hold only sender keys |
| EnvUpload.Missing | app/api/env/upload/route.ts:45 | A key is listed exactly when it is a sender key without a non-empty extracted value |
| EnvUpload.MissingInKeyOrder | app/api/env/upload/route.ts:43-45 | The missing keys come in the order of the key list |
| EnvUpload.Upload | app/api/env/upload/route.ts:20-47 | 400 for an unreadable body or blank text, with the store untouched. Otherwise the extracted values are merged into the store, even when some are missing; `missing` is computed from them, and `ok` holds exactly when nothing is missing |
| EnvUpload.ExtractionIsKnownValues | app/api/env/upload/route.ts:41-43 | The extraction loop's result is the specification's known values of the text |
| EnvUpload.BlankUploadIsWhitespace | app/api/env/upload/route.ts:38-40 | The upload is refused as blank exactly when the text is all white space |
| EnvUpload.UploadOkMeansComplete | app/api/env/upload/route.ts:45-46 | `ok` exactly when every sender key is given a non-empty value by some line |
| Middleware.Decide | middleware.ts:23-33 | Redirect to the login page, with the path as `redirect`, exactly when the path is not public and the session cookie is absent or empty |
| Middleware.RootIsGated | middleware.ts:13 | "/" is never public, and without a cookie it is redirected |
| Middleware.FrameworkAssetsArePublic | middleware.ts:14 | Every path starting with "/_next" is public, "/_nextfoo" included |
| Middleware.ListedPathsArePublic | middleware.ts:4-17 | Each listed path, and everything below it, is public |
| Middleware.LoginPrefixIsGated | middleware.ts:15-20 | A bare prefix such as "/loginx" is not public |
| Middleware.StaticAssetsArePublic | middleware.ts:19 | A path ending in a dot and a listed extension, in any letter case, is public |
| Middleware.LoginPageAlwaysPasses | middleware.ts:25 | The redirect target passes, so a redirect never loops |
| Login.Authenticate | app/api/auth/login/route.ts:6-25 | 500 ("Admin credentials not configured") exactly when admin credentials are unconfigured. Otherwise 400 ("Missing email or password") when a field is missing or empty, else 401 ("Invalid credentials") when either differs, else 200 with no error and the httpOnly, secure, lax, one-hour `batchmail_auth` cookie |
| Login.UnconfiguredRejectsEveryone | app/api/auth/login/route.ts:12-14 | Without a configured admin, every body gets 500 |
| Login.UnparsableBodyIsMissingFields | app/api/auth/login/route.ts:8-17 | A body that is not JSON counts as empty: 400 |
| Login.LoginOpensTheGate | app/api/auth/login/route.ts:21-24 | The cookie a successful login sets lets every path through the gate |
| PreviewPane.RenderRow | app/components/ui/PreviewPane.tsx:68-84 | The raw template without a mapping; the rendered text; or, when rendering throws, the error note followed by the raw template |
| PreviewPane.PreviewMatchesSentBody | app/components/ui/PreviewPane.tsx:75-81 | The preview shows the body the server sends when rendering succeeds, and a different text ending with the server's fallback when it throws |
| PreviewPane.Recipients | app/components/ui/PreviewPane.tsx:86-91 | Empty without a CSV and a mapping; otherwise the non-empty recipient values of the eligible rows, in row order |
| PreviewPane.AvailableVars | app/components/ui/PreviewPane.tsx:93-98 | Each header once, plus `name` and `recipient` when a mapping exists, and nothing else |
| PreviewPane.MatchAt | app/components/ui/PreviewPane.tsx:102 | A match captures an identifier and ends after its closing braces, at most at the end of the text |
| PreviewPane.MatchIsPlaceholder | app/components/ui/PreviewPane.tsx:102 | A match at a position is `{{`, white space, the captured identifier `t[a..b]`, white space and `}}` there, and ends just past the braces |
| PreviewPane.MatchesPlaceholder | app/components/ui/PreviewPane.tsx:102 | `{{`, white space, an identifier, white space and `}}` at a position are matched there, capturing the identifier |
| PreviewPane.NoMatchInside | app/components/ui/PreviewPane.tsx:104 | No match starts inside another, so the scan loses nothing by resuming at a match's end |
| PreviewPane.Captures | app/components/ui/PreviewPane.tsx:104 | Every capture is an identifier |
| PreviewPane.CapturedOccurs | app/components/ui/PreviewPane.tsx:104 | Every capture comes from a placeholder at or after the start |
| PreviewPane.OccurrenceCaptured | app/components/ui/PreviewPane.tsx:104 | Every placeholder at or after the start is captured |
| PreviewPane.CapturesOccurrences | app/components/ui/PreviewPane.tsx:100-114 | A variable is captured exactly when a placeholder for it occurs |
| PreviewPane.UsedVars | app/components/ui/PreviewPane.tsx:100-114 | Identifiers only, each once |
| PreviewPane.UsedVarsAreThePlaceholders | app/components/ui/PreviewPane.tsx:100-114 | A variable is reported exactly when some match of the pattern captures it, and exactly when the text holds `{{`, white space, that identifier, white space and `}}` somewhere |
| PreviewPane.UsedVarsInFirstOccurrenceOrder | app/components/ui/PreviewPane.tsx:104-105 | The reported variables come in the order of their first occurrence |
| PreviewPane.ScanVars | app/components/ui/PreviewPane.tsx:101-105 | The `re.exec` loop over a `Set` yields exactly `UsedVars` |
| PreviewPane.ScanExample | app/components/ui/PreviewPane.tsx:102 | "{{ name }}" uses exactly `name` |
| PreviewPane.AllUsed | app/components/ui/PreviewPane.tsx:116 | The variables of the subject and the body, each once |
| PreviewPane.Unknown | app/components/ui/PreviewPane.tsx:117 | A used variable is kept exactly when it is not known |
| PreviewPane.InvalidUsed | app/components/ui/PreviewPane.tsx:117 | No variable is flagged twice |
| PreviewPane.InvalidUsedIsUnknownVariables | app/components/ui/PreviewPane.tsx:93-117 | Flagged exactly when used in the subject or the body and neither a header nor, with a mapping, one of the two aliases |
| PreviewPane.SentSubject | app/components/ui/PreviewPane.tsx:141 | Omitted exactly when the subject template is blank; otherwise the trimmed subject template, non-empty |
| PreviewPane.SendRequest | app/components/ui/PreviewPane.tsx:128-143 | A body is posted exactly when a CSV, a mapping and a non-blank template exist. It holds only the eligible rows, the mapping, the template and the trimmed subject template |
| PreviewPane.SentToTheListedRecipients | app/components/ui/PreviewPane.tsx:86-91 | The posted body passes the dispatch validation, and its messages go to the listed recipients, one each, in list order |
| PreviewPane.Tick | app/components/ui/PreviewPane.tsx:62 | A tick takes one off a positive count and leaves zero at zero |
| PreviewPane.AfterTicksCountsDown | app/components/ui/PreviewPane.tsx:59-65 | After k ticks the count is s-k, and never below zero |
| PreviewPane.CooldownLastsFiveTicks | app/components/ui/PreviewPane.tsx:164 | After an attempt the send button stays cooling for exactly five ticks |
| PreviewPane.SendControls.constructor | app/components/ui/PreviewPane.tsx:25-26 | Not sending, no cool-down |
| PreviewPane.SendControls.TickSecond | app/components/ui/PreviewPane.tsx:61-63 | The count ticks down; the sending flag is kept |
| PreviewPane.SendControls.Send | app/components/ui/PreviewPane.tsx:127-166 | Nothing happens unless the panel is ready. Otherwise the send body is posted and, however the request ends, sending stops and the cool-down is set to five |
| PreviewPane.SendControls.Click | app/components/ui/PreviewPane.tsx:302-303 | Nothing while sending or cooling down; otherwise as `Send`; whenever nothing is posted, the sending flag and the cool-down are unchanged |
| HomePage.ExportSubject | app/page.tsx:43-45 | The rendered subject template when it has non-blank content, with a throw passed on; else `String` of the mapped subject column, even when empty or absent; else no subject |
| HomePage.Export | app/page.tsx:35-47 | Nothing without a CSV and a mapping. Otherwise an error, exactly when the subject render throws on some eligible row, or one entry per eligible row, in order, with `to` the listed recipient, `name` only when non-empty, the export subject and `html = htmlRender(row)` |
| HomePage.ExportedBodiesAreThePreview | app/page.tsx:46 | With the preview's renderer, each exported body is what the preview shows for that row |
| HomePage.MissingSubjectColumnDiverges | app/page.tsx:45 | With a blank subject template and a subject column the row lacks, the export writes "undefined" where the server sends "" |
| HomePage.ThrowingSubjectIsSentRaw | app/api/send/stream/route.ts:15-16 | The server sends such a row with the raw subject template as its subject |
| HomePage.IsDisabled | app/page.tsx:139-148 | The template tab is closed exactly without a CSV; the preview tab exactly without a CSV, a mapping or a chosen template; every other tab is open |
| HomePage.TitledIffDisabled | app/page.tsx:149-154 | A tab has a tooltip exactly when it is closed |
| HomePage.Page.constructor | app/page.tsx:24-29 | No CSV, no mapping, no chosen template; the sample template and the "{{ subject }}" subject template |
| HomePage.Page.OnParsed | app/page.tsx:74-79 | The new CSV and mapping are stored and the template choice is reset, which closes the preview tab and opens the template tab |
| HomePage.Page.OnUseTemplate | app/page.tsx:109 | The template is stored and marked chosen, which opens the preview tab once a CSV and a mapping exist |
| CsvUploader.FirstOrLeading | app/components/ui/CsvUploader.tsx:23-27 | The first matching header unless it is the empty string, else the first header, else "" |
| CsvUploader.GuessSubject | app/components/ui/CsvUploader.tsx:29-30 | A subject-like header exists exactly when a guess is made, and the guess is the first one |
| CsvUploader.PatternsRejectEmpty | app/components/ui/CsvUploader.tsx:23-30 | No header pattern accepts "" |
| CsvUploader.GuessExamples | app/components/ui/CsvUploader.tsx:23-30 | "E-Mail" is a recipient column; "Full Name" and "first_name" are name columns; without a match the first header is taken for the recipient and no subject is guessed |
| CsvUploader.Compact | app/components/ui/CsvUploader.tsx:45 | Exactly the present rows are kept, and all rows when none is falsy |
| CsvUploader.CompactAppend | app/components/ui/CsvUploader.tsx:45 | The filter distributes over concatenation, keeps a present row and drops a falsy one, which fixes the order and number of rows kept and so `rowCount` |
| CsvUploader.MergeMapping | app/components/ui/CsvUploader.tsx:53-57 | Non-empty recipient and name mappings are kept and empty ones guessed; a subject that is not null is kept, including "" |
| CsvUploader.MergeIdempotent | app/components/ui/CsvUploader.tsx:53-57 | Parsing the same headers again leaves the mapping unchanged |
| CsvUploader.FreshMappingNamesHeaders | app/components/ui/CsvUploader.tsx:53-57 | Without a prior mapping, every column the merged mapping names is a header |
| CsvUploader.Select | app/components/ui/CsvUploader.tsx:72 | Only the chosen key changes; an empty value becomes null |
| CsvUploader.SelectLastWins | app/components/ui/CsvUploader.tsx:70-75 | Of two selections for the same key, the last is the one that counts |
| CsvUploader.Uploader.constructor | app/components/ui/CsvUploader.tsx:33-35 | No CSV, no error; the mapping passed in |
| CsvUploader.Uploader.HandleFile | app/components/ui/CsvUploader.tsx:38-68 | A parse error sets the message, or "Failed to parse CSV". A parse without headers sets the no-headers error and emits nothing. Otherwise the CSV with `rowCount` = number of kept rows and the merged mapping are stored and emitted |
| CsvUploader.Uploader.ChangeSelect | app/components/ui/CsvUploader.tsx:70-75 | Nothing without a CSV; otherwise the mapping after the selection is stored and emitted with the current CSV |
| CsvUploader.Uploader.Reset | app/components/ui/CsvUploader.tsx:98-103 | No CSV, no mapping, no error |

## Left out

- The mail transport (nodemailer with Gmail) is a parameter. Its configuration is not modelled.
- Template semantics (nunjucks) are a parameter. No property depends on what the engine does.
- CSV parsing (Papa.parse and its header trimming) is outside the model. `HandleFile` takes the parser's header fields and data rows, or its error message, as input.
- HTTP and streaming plumbing is outside the model:
  - `Request.json`/`formData` (a body is already parsed, or unreadable);
  - `NextResponse`;
  - `ReadableStream`/`TextEncoder` (the stream is its sequence of events, and its bytes are the framed text);
  - response headers;
  - URL encoding of the login redirect's query;
  - the cookie API (cookies are a map).
- The middleware's `config.matcher` regex is framework routing. `Middleware.Decide` is stated for every path.
- The session token comes from `crypto.randomBytes`. It is a parameter; the lemma that needs it requires it to be non-empty.
- Timers are discrete steps: `setInterval` becomes one `TickSecond` per second.
- Alerts, modals (the send result and the branded variants' confirmation), the Blob download of the export, and React rendering are left out.
- `PreviewPane.SendControls.Send`: the panel posts to the buffered `/api/send` route, which is not part of this model. The posted body is related to the streaming route's validation and dispatch instead (`PreviewPane.SentToTheListedRecipients`), and the response is ignored, as the panel's state does not depend on it.
- `PreviewPane.SendControls.Enabled` (the send button's disabled attribute) depends on `envOk`, which comes from `/api/env`. That route is not part of this model, so `envOk` is a parameter.
- `attachmentsByName` is left out of the send body and the page state. The attachments panel is not part of this model.
- app/api/env/clear/route.ts only calls `clearOverrideEnv`, which is modelled as `EnvStore.OverrideStore.Clear`. Its JSON reply is not modelled.
- Tabs.tsx, the login page and Docs.tsx are UI or static content. The tab gating is modelled only as predicates, as the Tabs component does not take them.
- Concurrency is left out. The stream loop is sequential, and interleaved requests against the shared store are not modelled. `SendStream.Post` reads the store once, as the route does.
- Mapping fields that are `undefined` are treated like `null`. Both are read as the property "null" when used as a key.
- Non-string cell values and JSON bodies of other shapes are not modelled. A request body is either not JSON or the optional fields of `Payload`.
- `Ndjson`: the decoder accepts exactly the text the encoder writes. It is lenient about leading zeros and does not handle white space, other JSON values or lone surrogates, since `JSON.stringify` never produces them here.
- `JsText.IsSpace` follows the ECMAScript white space and line terminator set. Strings are sequences of Unicode characters; UTF-16 surrogate pairs are not modelled.
