# Call audits: a verified model

This is a Dafny model of a browser tool that audits recorded sales calls. An
operator uploads a recording. The file is read as a data URL and the base64
payload is sent to a language-model provider. The JSON reply is merged with
four locally derived fields (`id`, `timestamp`, `fileName` and the agent code
extracted from the file name). The resulting record is prepended to the list
of audits. The list is persisted to local storage, shown as cards and
exported as a paginated PDF report.

The modules follow the repository's files:

- `Types` (`types.ts`): the ten dispositions and their string values, the
  sentiments, the scorecard, the audit record and the application state.
- `GeminiService` (`services/geminiService.ts`):
  - agent-code extraction (the first `/IN\d+/i` match, upper-cased);
  - the rethrown error message;
  - the data-URL payload;
  - record assembly by object spread;
  - the typed view of a schema-conforming reply.
- `DispositionBadge` (`components/DispositionBadge.tsx`): the colour switch
  and the badge text.
- `AuditCard` (`components/AuditCard.tsx`):
  - the discrepancy test;
  - the reference label, scorecard placeholder and sentiment colour;
  - the expand/collapse state, as a class.
- `App` (`App.tsx`):
  - the state updates of the upload, key-setup and purge handlers;
  - the hydrate and save effects;
  - the cookie-expiry loop;
  - a `Shell` class whose methods change the state and the two stores.
- `PdfReport` (`App.tsx`, `handleDownloadPDF`): the layout loop. For each
  record it gives its number, the page it is drawn on and its header's
  height.
- `Strings` and `Json` hold the JavaScript primitives the source relies on:
  - `toUpperCase`, `toLowerCase`, `trim`, `indexOf`, `split`, `includes`;
  - the properties an object spread copies out of a parsed JSON value.
- `Wrappers` holds `Option` and `Result`.

Three things are abstract:

- **The provider.** It is a parameter: a reply text, an error with an
  optional message and status that the call failed with, or such an error
  thrown while the client was being built.
- **`JSON.parse`.** It is a parameter function from text to a value or a
  syntax error.
- **Browser storage.** Each key maps to what parsing the stored text yields:
  the empty string, an array of records, some other value, or a syntax
  error.

Two facts of the code shape the model:

- Stored content that parses but is not an array is ignored, and its key is
  kept (App.tsx:39).
- There are ten dispositions, including `CC = 'CallCut'` (types.ts:4).

## Model

| member | source | states |
|---|---|---|
| Types.DispositionsEnumerated | types.ts:1-12 | the enum has exactly ten members, every disposition is among them, and none is listed twice |
| Types.Value | types.ts:2-11 | the string each member stands for at run time, characterised by ValueInjective, ValueDiffersFromName and FromValueOfValue |
| Types.Name | types.ts:2-11 | the member's name as declared, set against its value by ValueDiffersFromName |
| Types.ValueInjective | types.ts:1-12 | distinct members have distinct string values |
| Types.ValueDiffersFromName | types.ts:3-10 | a member's value differs from its name exactly for CALLBK, CC, NI, DNC, DNQ, TS and LB |
| Types.FromValue | services/geminiService.ts:69 | the enum membership test: a found member has the given value, and a miss means no member has it |
| Types.FromValueOfValue | types.ts:1-12 | looking up a member's value gives back that member |
| Types.SentimentValue | types.ts:24 | the three sentiment strings, characterised by SentimentRoundTrip |
| Types.SentimentFromValue | types.ts:24 | the test for the three sentiment strings: a found sentiment has the given string, and a miss means none has it |
| Types.SentimentRoundTrip | types.ts:24 | looking up a sentiment's string gives back that sentiment |
| Strings.ToUpper | components/AuditCard.tsx:12 | same length, each character upper-cased |
| Strings.ToLower | services/geminiService.ts:113 | same length, each character lower-cased |
| Strings.ToUpperOfToLower | components/AuditCard.tsx:12 | upper-casing after lower-casing equals upper-casing |
| Strings.Trim | components/AuditCard.tsx:12 | `trim`, here and at App.tsx:171: TrimStart then TrimEnd, whose contracts fix the result |
| Strings.TrimStart | components/AuditCard.tsx:12 | the result is a suffix of the input, what was removed is white space, and the result does not start with white space |
| Strings.TrimEnd | components/AuditCard.tsx:12 | the result is a prefix of the input, what was removed is white space, and the result does not end with white space |
| Strings.TrimKeepsNoLower | components/AuditCard.tsx:12 | trimming a string without lower-case letters leaves none |
| Strings.TrimIgnoresPadding | components/AuditCard.tsx:12 | trimming ignores any white space added on either side |
| Strings.Contains | services/geminiService.ts:113 | `includes`: some position where the part occurs, as the quota test uses it; the one-character test at services/geminiService.ts:126 is sequence membership |
| Strings.IndexOf | App.tsx:169 | -1 exactly when the character is absent; otherwise the position of its first occurrence |
| Strings.Split | components/AuditCard.tsx:23 | at least one piece, and no piece contains the separator |
| Strings.JoinSplit | services/geminiService.ts:130 | joining the pieces of a split with the separator restores the string |
| Strings.SplitJoin | services/geminiService.ts:130 | splitting a join of separator-free pieces gives back the pieces |
| Strings.SplitAtFirst | services/geminiService.ts:130 | the first piece is the text before the first separator, and the rest is the split of what follows |
| Json.IndexKey | services/geminiService.ts:109 | an index's property key is a non-empty string of decimal digits |
| Json.IndexKeyInjective | services/geminiService.ts:109 | distinct indices have distinct keys |
| Json.IndexedLookup | services/geminiService.ts:109 | element i of an array is found under the key of i |
| Json.SpreadEntries | services/geminiService.ts:109 | what `{...v}` copies: an object's members; a string's characters or an array's elements under their index keys, and no other keys; nothing for null, booleans and numbers |
| GeminiService.DigitRunEnd | services/geminiService.ts:5 | the greedy `\d+` stops at the first non-digit or at the end |
| GeminiService.FindMatch | services/geminiService.ts:5 | the search finds the first position where the pattern matches, or reports that none does |
| GeminiService.ExtractAgentCode | services/geminiService.ts:4-7 | the sentinel is returned exactly when the pattern matches nowhere; otherwise the result is "IN" followed by digits |
| GeminiService.AgentCodeOfLeftmostMatch | services/geminiService.ts:4-7 | the code is "IN" plus the whole digit run of the leftmost match |
| GeminiService.AgentCodeExample | services/geminiService.ts:4-7 | "call_in4521x.mp3" gives "IN4521" |
| GeminiService.DigitRunToEnd | services/geminiService.ts:5 | a run of digits up to the end is consumed entirely |
| GeminiService.ExtractAgentCodeIdempotent | services/geminiService.ts:4-7 | extracting from an extracted code, or from the sentinel, gives it back |
| GeminiService.IsQuotaError | services/geminiService.ts:113 | the quota test: the lower-cased message contains "quota", or the status is 429 |
| GeminiService.RethrownMessage | services/geminiService.ts:111-117 | never empty; the quota message for a quota error; otherwise the error's own non-empty message, or the default |
| GeminiService.QuotaMessageExactlyForQuota | services/geminiService.ts:113-114 | the quota message is rethrown if and only if the error is a quota error |
| GeminiService.Base64Payload | services/geminiService.ts:124-131 | fails with "Audio decoding failed." exactly when there is no comma; otherwise the payload contains no comma |
| GeminiService.Base64PayloadAfterFirstComma | services/geminiService.ts:130 | the payload is the text between the first comma and the next comma or the end |
| GeminiService.LocalFields | services/geminiService.ts:104-108 | exactly the keys id, timestamp, fileName and agentCode, holding the given strings |
| GeminiService.AssembleRecord | services/geminiService.ts:104-110 | the keys are the four local ones plus the reply's; the reply's values win; a local field the reply lacks keeps its local value |
| GeminiService.ResponseText | services/geminiService.ts:102 | never empty: the response text when there is some, "{}" otherwise |
| GeminiService.RawMessage | services/geminiService.ts:18 | an error that escapes the handler reaches the caller with its own message, or none |
| GeminiService.AnalyzeCallAudio | services/geminiService.ts:18-117 | every failure the handler rethrows carries a non-empty message |
| GeminiService.AnalyzeOutcome | services/geminiService.ts:18-117 | success exactly when the provider answered and its text parsed; a provider error and a syntax error are each rethrown through the error mapping; an error building the client passes through unmapped; a success is exactly the assembled record of the parsed reply, so it holds every reply field and the four local fields unless overridden |
| GeminiService.AnalyzeEmptyResponse | services/geminiService.ts:102-110 | an empty or missing text is parsed as "{}", and the record is then exactly the four local fields |
| GeminiService.ProviderSchema | services/geminiService.ts:65-98 | the response schema: the required fields with their types, and the two enum-constrained strings |
| GeminiService.ToRecord | types.ts:14-33 | every field of the typed record holds the reply's value for it: each string field, the three scorecard entries, the optional confidence, the critiques one by one, and the disposition and sentiment whose strings the reply gave |
| GeminiService.AssembledRecordConforms | services/geminiService.ts:65-110 | a schema-conforming reply yields a well-typed record with the file name, agent code and id unless the reply overrides them, and with the reply's disposition and summary |
| DispositionBadge.Palette | components/DispositionBadge.tsx:12-28 | every class string ends with " shadow-sm" |
| DispositionBadge.ColorsFor | components/DispositionBadge.tsx:9-29 | total over all strings, and every result ends with " shadow-sm" |
| DispositionBadge.GetColors | components/DispositionBadge.tsx:9-29 | every disposition gets a whole palette, ending with " shadow-sm" |
| DispositionBadge.BadgeText | components/DispositionBadge.tsx:34 | the disposition's string value, characterised by BadgeTextIdentifies |
| DispositionBadge.BadgeTextIdentifies | components/DispositionBadge.tsx:34 | the badge text is the disposition's value, which names it unambiguously |
| DispositionBadge.SharedColours | components/DispositionBadge.tsx:17-22 | NI and DNC share red; CC and LB share orange |
| DispositionBadge.OwnColours | components/DispositionBadge.tsx:11-28 | SALE green, CALLBK blue, CNP sky, DNQ amber, TS purple, OTHER the default slate |
| DispositionBadge.UnknownValueIsSlate | components/DispositionBadge.tsx:27-28 | a string no case matches gets slate |
| DispositionBadge.PalettesDistinct | components/DispositionBadge.tsx:11-28 | the eight colour families give pairwise distinct class strings |
| AuditCard.Normalize | components/AuditCard.tsx:12 | the upper-cased, trimmed form: no lower-case letter, and no white space at either end |
| AuditCard.Differs | components/AuditCard.tsx:12 | the comparison of the normalised strings, characterised by the four lemmas below |
| AuditCard.IsDiscrepancy | components/AuditCard.tsx:12 | the card's flag: the logged disposition and the suggested one's value differ |
| AuditCard.HasFailures | components/AuditCard.tsx:13 | the critiques test: at least one failure point |
| AuditCard.DiffersSymmetricIrreflexive | components/AuditCard.tsx:12 | the discrepancy test is symmetric and never flags a string against itself |
| AuditCard.CaseAndPaddingNotFlagged | components/AuditCard.tsx:12 | strings equal up to case, with white space around one of them, are not flagged |
| AuditCard.MemberNameIsFlagged | components/AuditCard.tsx:12 | logging "CALLBK" against the suggested CALLBACK is flagged |
| AuditCard.LowerCasePaddedValueNotFlagged | components/AuditCard.tsx:12 | a disposition's value logged in lower case with blanks around it is not flagged |
| AuditCard.RefLabel | components/AuditCard.tsx:23 | contains no '-'; the upper-cased whole id without a dash, else the upper-cased text before the first dash |
| AuditCard.ScoreText | components/AuditCard.tsx:119 | never empty; the content when there is some, the placeholder otherwise |
| AuditCard.SentimentClass | components/AuditCard.tsx:99 | rose exactly for "Negative", emerald exactly for "Positive", amber exactly for anything else |
| AuditCard.SentimentColours | components/AuditCard.tsx:99 | each of the three sentiments has its colour |
| AuditCard.CardView.constructor | components/AuditCard.tsx:10 | a new card starts collapsed |
| AuditCard.CardView.ToggleNarrative | components/AuditCard.tsx:75 | the button flips the expanded state |
| AuditCard.CardView.ButtonLabel | components/AuditCard.tsx:76 | the label is "Collapse" exactly when expanded |
| AuditCard.CardView.Clamped | components/AuditCard.tsx:79 | the narrative takes `line-clamp-3` exactly while collapsed, as ToggleTwiceCollapses uses |
| AuditCard.ToggleTwiceCollapses | components/AuditCard.tsx:10-79 | pressing the button twice leaves a new card clamped |
| App.Initial | App.tsx:26-30 | the empty, idle state without an error, also the one the purge sets at App.tsx:173-177 |
| App.Hydrated | App.tsx:34-44 | the hydrate effect's state update, characterised by HydrationCases and SaveThenReload |
| App.HydratedStore | App.tsx:35-42 | the hydrate effect's storage update: only a syntax error removes the key |
| App.Saved | App.tsx:46-50 | the save effect: the list is written only when it is not empty |
| App.Started | App.tsx:63 | the update when a file is chosen, characterised by StartKeepsAudits |
| App.Succeeded | App.tsx:69-73 | the success update, characterised by SuccessPrependsOne |
| App.Failed | App.tsx:74-80 | the failure update, characterised by FailureKeepsAudits |
| App.Finished | App.tsx:65-80 | the end of an upload: the success or the failure update, characterised by UploadCycle |
| App.StartKeepsAudits | App.tsx:59-63 | an upload with a file sets the pending flag, clears the error and keeps the list |
| App.SuccessPrependsOne | App.tsx:69-73 | success adds exactly one record, at index 0, with the old records behind it in order, and clears the pending flag |
| App.FailureKeepsAudits | App.tsx:74-80 | failure keeps the list, clears the pending flag, and shows the thrown message or, when that is empty, the fallback |
| App.UploadCycle | App.tsx:59-80 | after a full upload nothing is pending; success leaves no error; failure leaves the list as it was |
| App.SaveThenReload | App.tsx:34-50 | a reload after a save restores exactly the saved list and leaves the store unchanged |
| App.EmptyListNotSaved | App.tsx:46-50 | an empty list never overwrites the store |
| App.HydrationCases | App.tsx:34-44 | absent or empty text changes nothing; a non-array value is ignored and kept; a syntax error removes only that key; the flag and error are untouched |
| App.NothingToReloadAfterPurge | App.tsx:162-178 | the save effect the emptied list triggers writes nothing back, and a reload after a purge finds nothing and changes nothing |
| App.UploadResult | App.tsx:65-66 | every failure not thrown while building the client has a non-empty message; an undecodable data URL fails with the decoding message; a client error passes through unmapped |
| App.FallbackOnlyForUnbuiltClient | App.tsx:74-80 | the failure's own message is shown whenever it has one, and it lacks one exactly when building the client threw an error without a message, which then shows the fallback |
| App.SuccessfulUpload | App.tsx:59-73 | a decodable file with a schema-conforming reply and the reply names none of the four local fields, puts a well-typed record with that file name, agent code and id at the head of the list |
| App.CookieName | App.tsx:169-171 | the name contains no '=' and is no longer than the cookie |
| App.CookieNameWithoutEquals | App.tsx:169-171 | a cookie without '=' is its own name, trimmed |
| App.CookieNameOfPair | App.tsx:169-171 | for any text without '=', then '=', then any value, the name is that text trimmed |
| App.CookieNameOfPaddedPair | App.tsx:169-171 | a cookie `name=value` with blanks before it is expired under exactly that name |
| App.CookieExpiryWrites | App.tsx:166-172 | one expiring assignment per piece of the header, in order, each for that piece's name |
| App.EmptyHeaderOneWrite | App.tsx:166 | an empty header is one empty piece, whose name is empty |
| App.Shell.constructor | App.tsx:26-30 | the state starts empty, not pending and without an error |
| App.Shell.Hydrate | App.tsx:34-44 | the new state and store are the hydrate effect's update of the old ones; session storage is untouched |
| App.Shell.Persist | App.tsx:46-50 | the store is the save effect's update for the current list; the state is unchanged |
| App.Shell.OpenPicker | App.tsx:234 | the picker opens exactly when no analysis is pending |
| App.Shell.BeginUpload | App.tsx:59-63 | without a file nothing changes; with one the state is the started state |
| App.Shell.FinishUpload | App.tsx:65-80 | the state becomes the success or failure update; storage is untouched |
| App.Shell.KeySetup | App.tsx:52-56 | the error is cleared only when the host offers key selection |
| App.Shell.ClearEverything | App.tsx:162-183 | on success the state is empty, the key is gone from both stores, and an expiring assignment is written for each cookie name in the header; when storage throws, only the alert happens |
| App.PurgeTwice | App.tsx:162-178 | purging twice leaves the state and both stores as one purge does |
| PdfReport.Extent | App.tsx:117-153 | how far below its header a record draws: 7, 5 and 8 for the header lines, 5 per summary line, the critiques block when there are critiques, and 10 before the rule |
| PdfReport.Advance | App.tsx:117-156 | the extent and the 15 after the rule, the step FittingRecordClipped and LongRecordRunsPastPage rest on |
| PdfReport.HeaderY | App.tsx:112-115 | the header's height: 20 after a break, the cursor otherwise, as PageBreakRule states |
| PdfReport.PageOf | App.tsx:112-115 | the page count after the break test, as PageBreakRule states |
| PdfReport.Cursor | App.tsx:111-121 | the cursor and page count before each record, characterised by CursorBounds and PageBreakRule |
| PdfReport.EntryAt | App.tsx:111-121 | where record k is drawn, characterised by EntryPlacement and ExportedEntries |
| PdfReport.CursorBounds | App.tsx:111-156 | the cursor never rises above the top margin, and each record adds at most one page |
| PdfReport.PagesMonotone | App.tsx:111-115 | the page count never decreases from one record to the next |
| PdfReport.EntryPlacement | App.tsx:111-121 | each header lies between 20 and 250 on a page the report has, numbered N - k, showing record k |
| PdfReport.PageBreakRule | App.tsx:112-115 | the next record starts a new page, at height 20, exactly when the cursor has passed 250 |
| PdfReport.CritiquesDrawnLikeCard | App.tsx:139-151 | the report adds the critiques block exactly when the card's critiques test (components/AuditCard.tsx:13) holds |
| PdfReport.LongRecordRunsPastPage | App.tsx:111-156 | a record whose summary wraps to 50 lines runs past the page bottom |
| PdfReport.Export | App.tsx:86-160 | no document for an empty list; otherwise one entry per record in list order, each placed as EntryAt says |
| PdfReport.ExportedEntries | App.tsx:111-121 | record k is shown k-th, numbered N - k; the numbers strictly decrease; each header is between 20 and 250 |
| PdfReport.FittingRecordClipped | App.tsx:111-156 | a record that would fit on a fresh page starts at 250 and is cut off at the page bottom |
| PdfReport.Breaks | App.tsx:112-115 | the corrected break test: past 250, or the record would pass the bottom margin, unless the cursor is at the top |
| PdfReport.FittedCursor | App.tsx:111-156 | the cursor and page count under the corrected test, characterised by FittedCursorBelowTop and FittedNeverClips |
| PdfReport.FittedEntryAt | App.tsx:111-121 | where record k is drawn under the corrected test, as FittedNeverClips and ExportFitted state |
| PdfReport.FittedCursorBelowTop | App.tsx:111-156 | with the corrected test, the cursor never rises above the top margin |
| PdfReport.FittedNeverClips | App.tsx:111-156 | with the corrected test, a record no taller than the writing area ends above the bottom margin, with its header between 20 and 250 |
| PdfReport.ExportFitted | App.tsx:86-160 | the export with the corrected break test places each record as FittedEntryAt says |

## Left out

- The provider call (model name, prompt, response-schema configuration) is a foreign network call. Its answer is a parameter, and enum and type conformance of the reply is a precondition (`Conforms`) of the typed view.
- `JSON.parse` and `JSON.stringify` are parameters or abstract. A saved list is assumed to read back as the same list.
- The order of keys in the assembled object is not modelled.
- `FileReader` and its error callback are browser I/O. Only the data-URL split is modelled, and the payload and MIME type never reach the provider parameter.
- Browser storage and cookies are maps and strings. When storage throws, the purge is modelled as failing at its first removal, before anything changes.
- A `getItem` that throws in the hydrate effect (App.tsx:35) or a `setItem` that throws in the save effect (App.tsx:48), for example when the storage quota is exceeded, is not modelled; neither is caught in the code.
- `crypto.randomUUID` and `new Date()` are opaque `id` and `timestamp` inputs.
- Date formatting in the card and the report is not modelled.
- The confidence percentage `(confidence * 100).toFixed(0)` is floating-point formatting.
- jsPDF drawing, fonts, colours and `splitTextToSize` are foreign rendering calls. The wrapped line counts are inputs to the layout.
- JSX layout, the Tailwind classes beyond the badge and sentiment mappings, the logo, the reset modal's open flag, `window.aistudio` key selection and `console` logging are UI or host plumbing.
- The reset of the file input after an upload is a DOM effect.
- Concurrency across tabs or overlapping requests is not modelled. The only guard in the code is the click check that `App.Shell.OpenPicker` models.
- Strings.ToUpper: maps ASCII letters only; JavaScript's full Unicode case mapping is not modelled. This is exact for the agent code and for the REF label of a hexadecimal id, but not for the discrepancy test on non-ASCII logged text: JavaScript upper-cases 'ı' to "I" and 'ß' to "SS", which the model leaves unchanged.
- Strings.ToLower: maps ASCII letters only; this is exact for the "quota" test, since no other character lower-cases to a letter of "quota".
- GeminiService.AnalyzeCallAudio: its own contract states only that rethrown failures carry a message; the full behaviour is stated by `AnalyzeOutcome` and `AnalyzeEmptyResponse`.
- The client is built before the `try` (services/geminiService.ts:18), so an error thrown there skips the quota and default mapping. The model has a reply case for it (`Unbuilt`), but it does not model which configurations make the constructor throw.
- App.UploadResult: the contract covers failures; success is characterised by `App.SuccessfulUpload`.
- AuditCard.HasFailures: the typed record always holds a list of failure points, so the card's guard against a missing list is not modelled.
- App.Stored: an array in storage is assumed to hold audit records; arbitrary arrays are not modelled.
- The typed state holds only schema-conforming records, so a success whose reply does not conform, such as the four-field record of an empty reply (`AnalyzeEmptyResponse`), cannot be represented there; the code prepends it (App.tsx:71), persists it (App.tsx:48), and the card then calls `toUpperCase` on its missing `recordedDisposition` (components/AuditCard.tsx:12), which throws on every render, reload included.

## Findings

| source | as written | input that shows it | evidently intended | confidence | as-written member | corrected member |
|---|---|---|---|---|---|---|
| App.tsx:111-156 | a new page starts only when the cursor is past 250 before a record, whatever the record's height | two records without critiques, the first with a 31-line summary (cursor at 250) and the second with a 4-line summary: the second's rule falls at 300, below the 297 mm page | pagination before content overflows the page, so no content is clipped | medium (not executed) | PdfReport.FittingRecordClipped | PdfReport.FittedNeverClips |

The corrected break test also starts a new page when the next record would
pass the bottom margin (282). It does this unless the cursor is already at
the top of a page, because a record taller than a page cannot fit anywhere
when breaks happen only between records.
