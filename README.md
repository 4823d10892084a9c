# Timed challenge platform — a Dafny model

The platform runs timed take-home challenges:

- An admin creates a challenge for a candidate's e-mail address. The server stores a record under `challenge:<email>` in Redis and hands back a random access token. Only the token's bcrypt hash is kept.
- The candidate logs in with the e-mail and the token as cookies and starts the clock.
- The candidate submits text, before or after the end time.
- The admin lists candidates, their submissions and lateness, and keeps a list of description templates.

This project models that core:

- **Server handlers.** Status, start, submit, create, the three candidate listings, the challenge summary list, and template GET/POST.
- **Store.** The Redis store they change, a class whose methods are tied to the pure handler functions.
- **Client logic.** The candidate page's clock arithmetic and submit gating. The admin pages' lateness, searches, sort and duration labels. The create form, including its e-mail check and duration parsing. The template manager's cache edits.

## What is a parameter

Anything outside the code is a parameter:

- **bcrypt.** `matches(text, hash)` stands for bcrypt's compare and `hash(text)` for bcrypt's hash. Create assumes the compare accepts every text against its own hash.
- **Randomness.** The 16 random bytes of the token are a parameter.
- **Clocks.** Server and browser clocks are a `now` in milliseconds.
- **Store failures.** Whether Redis answers during a request is `reachable`.
- **Formula evaluation.** `eval` of a duration formula is `evaluate`, returning a `FormulaValue`.

## Where the code differs from the design

Where the written design and the code differ, the model follows the code:

- **Restart.** Starting an already started challenge restarts the clock. No "already started" error is returned.
- **One submission.** A submission overwrites the single `submission`/`submissionTime` pair. The `submissions` array and `latestSubmission` are never written.
- **Overtime.** An overtime submit is refused exactly when a (truthy) submission is already stored. So the first late one is accepted, and nothing after it is.
- **Status reply.** The status reply returns the whole record, `hashedAuthToken` included.

## JavaScript semantics

JavaScript semantics the code relies on are written out:

- truthiness of strings and numbers;
- `|| null`;
- `parseInt` (section 19.2.5 of ECMA-262, as far as decimal and `0x` numerals go);
- the sign-keeping `%`;
- `NaN` comparing false.

## Model

| member | source | states |
|---|---|---|
| Challenge.ChallengeKeyInjective | src/app/api/utils.ts:9-12 | two e-mails with the same `challenge:` key are the same e-mail |
| Challenge.EmailOfKeyRoundTrip | src/app/api/candidate/all/route.ts:11 | splitting a key at ':' recovers the e-mail exactly when the e-mail has no ':' |
| Challenge.ApplyKeepsConsistent | src/app/types.ts:1-16 | writing a record of the handlers' shape under its own e-mail keeps every record in the store well-shaped and under its own key |
| Lookup.AdminAuthorized | src/app/api/challenge/create/route.ts:21-27 | the admin gate: an admin hash is stored, the admin cookie is present and bcrypt's compare accepts it |
| Lookup.GetChallengeStatus | src/app/api/utils.ts:9-12 | a record is found exactly when one is stored under the e-mail's key |
| Lookup.ReadBackWritten | src/app/api/utils.ts:9-12 | a record written under its e-mail is what the next read of that e-mail returns; other e-mails read as before |
| Lookup.GetChallengeFromCookie | src/app/api/utils.ts:15-24 | missing cookies give "not found"; an unreachable store gives "store down"; a record is returned exactly when it exists and the token matches its hash |
| Lookup.WriteBackKey | src/app/api/challenge/submit/route.ts:48-51 | in a well-keyed store, the e-mail a handler writes back under is the cookie's e-mail |
| StartRoute.Start | src/app/api/challenge/start/route.ts:8-46 | 404 without a record, 500 when the store fails, 400 without a truthy duration; otherwise the clock opens at `now` and closes `duration` seconds later, nothing else in the record changes, the reply echoes the window, and well-shaped records stay well-shaped |
| StartRoute.StartWindow | src/app/api/challenge/start/route.ts:25-30 | the window is exactly `duration` seconds long and not empty for a positive duration |
| StartRoute.RestartForgetsFirstStart | src/app/api/challenge/start/route.ts:17-35 | a second start re-opens the window from the later clock and keeps the stored submission |
| SubmitRoute.Submit | src/app/api/challenge/submit/route.ts:8-70 | the error cases in the handler's order (404, 500, 400 not started, 400 empty, 400 overtime with a stored submission); an accepted submit stores the text and time and replies with them and the overtime flag, keeping well-shaped records well-shaped |
| SubmitRoute.LateSubmissionIsFinal | src/app/api/challenge/submit/route.ts:33-51 | once a late submission is stored, every later attempt leaves the record unchanged |
| SubmitRoute.AcceptedOvertimeIsLast | src/app/api/challenge/submit/route.ts:33-51 | an accepted overtime submit is the last one any later sequence of attempts can change |
| SubmitRoute.OnTimeOverwrites | src/app/api/challenge/submit/route.ts:44-51 | an on-time submit replaces the stored submission and time and nothing else |
| SubmitRoute.FirstOvertimeAccepted | src/app/api/challenge/submit/route.ts:36-64 | a late submit with nothing stored is accepted and flagged as overtime |
| StatusRoute.Status | src/app/api/challenge/status/route.ts:4-27 | the reply is the stored record itself exactly when the lookup authenticates; 500 exactly when cookies are present and the store fails; otherwise 404 |
| CreateRoute.HexEncode | src/app/api/challenge/create/route.ts:39-40 | the token has two lower-case hex digits per random byte |
| CreateRoute.HexRoundTrip | src/app/api/challenge/create/route.ts:39-40 | the token text decodes back to the random bytes it came from |
| CreateRoute.NewChallenge | src/app/api/challenge/create/route.ts:43-53 | a new record is not started, has no clock and no submission, carries the request fields and token hash, and is well-shaped |
| CreateRoute.Create | src/app/api/challenge/create/route.ts:15-61 | 401 without a matching admin key; 400 when the e-mail is taken; otherwise writes a new record and replies with the hex token, whose hash is the one stored, so the token matches the stored hash; a write happens exactly on success |
| CreateRoute.CreatedChallengeIsReachable | src/app/api/challenge/create/route.ts:39-61 | with the returned token and a non-empty e-mail as cookies, the cookie lookup finds the new record |
| CreateRoute.CreateTouchesOneKey | src/app/api/challenge/create/route.ts:56-59 | create leaves every other stored record as it was |
| Templates.GetTemplates | src/app/api/templates/route.ts:10-29 | the stored list, `[]` when none is stored, 500 when the store fails |
| Templates.WithServerId | src/app/api/templates/route.ts:41-44 | the stored template keeps the posted name and content; its id is the server clock's decimal text |
| Templates.ServerIdsCollideOnlyOnSameClock | src/app/api/templates/route.ts:41-44 | two posted templates share an id exactly when they were posted in the same millisecond |
| Templates.Appended | src/app/api/templates/route.ts:36-48 | the stored list grows by one: the old list followed by the new template |
| Templates.QueryAfterPost | src/app/api/templates/route.ts:31-50 | after a post, the list query returns the old list plus exactly the template the post returned |
| Templates.FindById | src/app/admin/create-challenge/CreateChallengeForm.tsx:71-80 | none exactly when no template has the id; otherwise the first template with that id |
| TemplateCache.ReplaceById | src/app/admin/templates/TemplateManager.tsx:106-108 | entries with the saved id become the saved template; all others stay; length is kept |
| TemplateCache.ReplaceByIdIdempotent | src/app/admin/templates/TemplateManager.tsx:106-108 | saving the same template twice equals saving it once |
| TemplateCache.ReplaceUnknownId | src/app/admin/templates/TemplateManager.tsx:106-108 | a save whose id is not cached leaves the cache unchanged |
| TemplateCache.FindAfterReplace | src/app/admin/templates/TemplateManager.tsx:106-108 | after a save, looking up its id finds the saved template exactly when the id was cached |
| TemplateCache.EditContent | src/app/admin/templates/TemplateManager.tsx:117-121 | an editor change replaces only the selected template's content; with no selection nothing changes |
| TemplateCache.NewTemplate | src/app/admin/templates/TemplateManager.tsx:123-130 | a new template carries the entered name and content and the browser clock's text as id |
| TemplateCache.ClientIdOverridden | src/app/admin/templates/TemplateManager.tsx:123-130 | the id the manager sends is replaced: the stored template's id is the server's clock |
| Store.Redis.constructor | src/app/api/utils.ts:9-12 | an empty store holding only the admin hash is well-shaped |
| Store.Redis.Create | src/app/api/challenge/create/route.ts:15-61 | the store afterwards is the old one with the create decision's write applied; on success the returned token matches the hash stored under the e-mail; admin and templates untouched; well-shapedness kept |
| Store.Redis.Start | src/app/api/challenge/start/route.ts:8-46 | the store afterwards is the old one with the start decision's write applied; no key added; well-shapedness kept |
| Store.Redis.Submit | src/app/api/challenge/submit/route.ts:8-70 | the store afterwards is the old one with the submit decision's write applied; no key added; well-shapedness kept |
| Store.Redis.PostTemplate | src/app/api/templates/route.ts:31-60 | a reachable store appends the template with the server id and returns it; otherwise 500 and nothing changes; challenge records untouched |
| Units.RenderRoundTrip | src/utils.ts:8-14 | space-joined `${value}${unit}` parts read back as exactly those parts |
| Countdown.FormatDuration | src/app/candidate/TimedSubmissionPlatform.tsx:9-22 | `formatDuration`: the non-zero day, hour, minute and second parts joined by spaces, "0s" for zero; its meaning is proved in FormatDurationRoundTrip |
| Countdown.FormatTime | src/app/candidate/TimedSubmissionPlatform.tsx:54-66 | `formatTime`: two-digit-padded fields joined by colons, hours only from one hour on; its meaning is proved in FormatTimeRoundTrip |
| Countdown.CanSubmit | src/app/candidate/TimedSubmissionPlatform.tsx:275-276 | the submit gate: open while time is left or while nothing has been submitted; compared with the server in ClientAtLeastAsStrict |
| Countdown.ClientSends | src/app/candidate/TimedSubmissionPlatform.tsx:126-132 | the page posts when the gate is open and the trimmed text has at least ten characters; the server accepts it by SentTextIsNonEmpty |
| Countdown.ShowsOvertimeLabel | src/app/candidate/TimedSubmissionPlatform.tsx:330-341 | the banner's overtime test, submission time after end time; agreement with the server is OvertimeLabelAgreesWithServer |
| Countdown.AssembleWellFormed | src/app/candidate/TimedSubmissionPlatform.tsx:15-19 | pushed parts are in d, h, m, s order, within their bounds, non-zero, and "0s" only for zero |
| Countdown.DurationParts | src/app/candidate/TimedSubmissionPlatform.tsx:9-22 | the parts of a duration are well-formed and add up to exactly its seconds |
| Countdown.FormatDurationRoundTrip | src/app/candidate/TimedSubmissionPlatform.tsx:9-22 | the duration text is never empty and reads back as exactly the seconds it was made from |
| Countdown.ClockTextReads | src/app/candidate/TimedSubmissionPlatform.tsx:54-66 | every clock field is two or more digits and the text reads back as hours*3600 + minutes*60 + seconds |
| Countdown.FormatTimeRoundTrip | src/app/candidate/TimedSubmissionPlatform.tsx:54-66 | three fields exactly from one hour on, each at least two digits, hours never cut, and the text reads back as the seconds |
| Countdown.TimeLeft | src/app/candidate/TimedSubmissionPlatform.tsx:249-262 | zero exactly when the end time has passed; otherwise the remaining milliseconds rounded up to whole seconds |
| Countdown.SentTextIsNonEmpty | src/app/candidate/TimedSubmissionPlatform.tsx:126-132 | text the page sends always passes the server's emptiness check |
| Countdown.ClientAtLeastAsStrict | src/app/candidate/TimedSubmissionPlatform.tsx:275-276 | whenever the server would refuse an overtime submit, the page's submit gate is closed |
| Countdown.ClientClosesAtDeadline | src/app/candidate/TimedSubmissionPlatform.tsx:275-276 | at exactly the end time the server still accepts a resubmission, but the page's gate is already closed |
| Countdown.OvertimeLabelAgreesWithServer | src/app/candidate/TimedSubmissionPlatform.tsx:330-347 | the banner says "Overtime submission" exactly when the accepted submit was overtime |
| DurationText.FormatDuration | src/utils.ts:1-15 | "NaN" for a missing duration; otherwise the same text as the candidate page's formatter, whose round trip is proved |
| Listings.RecordOfOwnKey | src/app/api/candidate/all/route.ts:11 | a listing finds a record by its key exactly when the e-mail has no ':' |
| Listings.CandidateRowOf | src/app/api/candidate/all/route.ts:8-22 | the row's e-mail is the key's; submission fields are present exactly when truthy, and then equal the record's; missing records give the default row |
| Listings.CandidateList | src/app/api/candidate/all/route.ts:8-30 | one row per key, in key order; 500 when the store fails |
| Listings.CandidateListShowsSubmission | src/app/api/candidate/all/route.ts:15-19 | a stored submission and its time appear in the open candidate list |
| Listings.AdminRowOf | src/app/api/admin/candidate/all/route.ts:28-41 | as written: submission fields come from `latestSubmission`; the rest mirrors the record |
| Listings.AdminRowNeverShowsSubmission | src/app/api/admin/candidate/all/route.ts:34-35 | as written, the admin row never shows a submission for any record the handlers wrote |
| Listings.FixedAdminRowOf | src/app/api/admin/candidate/all/route.ts:28-41 | corrected: the open candidate row plus the description |
| Listings.FixedAdminRowShowsSubmission | src/app/api/admin/candidate/all/route.ts:34-35 | corrected: the admin row shows the stored submission |
| Listings.AdminCandidateList | src/app/api/admin/candidate/all/route.ts:11-54 | as written: 500 when the store fails, 401 without a matching admin key, otherwise one `latestSubmission` row per key in order |
| Listings.AdminListShowsNoSubmission | src/app/api/admin/candidate/all/route.ts:26-44 | as written, no row of the admin list shows a submission or a submission time when the handlers wrote the store |
| Listings.FixedAdminCandidateList | src/app/api/admin/candidate/all/route.ts:11-54 | corrected: the same gate and errors as the list as written, with one corrected row per key in order |
| Listings.FixedAdminListDiffersOnlyInSubmission | src/app/api/admin/candidate/all/route.ts:34-35 | the corrected list differs from the list as written only in each row's submission fields |
| Listings.ResponseOf | src/app/api/candidate/responses/route.ts:13-19 | a response exists exactly for a stored record with a truthy submission, and carries it |
| Listings.ResponseList | src/app/api/candidate/responses/route.ts:13-31 | exactly the keys' responses, at most one per key; 500 when the store fails |
| Listings.ResponsesKeepKeyOrder | src/app/api/candidate/responses/route.ts:23 | responses follow the order of the keys |
| Listings.SummaryOf | src/app/api/challenge/route.ts:12-21 | a summary per stored record: id and name the e-mail; description or ""; duration or 0; start time or now; one candidate |
| Listings.ChallengeList | src/app/api/challenge/route.ts:8-35 | exactly the stored records' summaries, empty exactly when no key has a record; 500 when the store fails |
| Listings.SummariesKeepKeyOrder | src/app/api/challenge/route.ts:27 | summaries follow the order of the keys |
| AdminDashboard.RowLateness | src/app/admin/admin.tsx:118-120 | as written: lateness only when start, end and submission times are all truthy, computed from the row's duration |
| AdminDashboard.ShowsLateness | src/app/admin/admin.tsx:140-142 | "Late by" is printed for a lateness that is a number above zero; NaN compares false |
| AdminDashboard.FormatLateness | src/app/admin/admin.tsx:27-39 | `formatLateness`: hours and minutes from one hour on, minutes and seconds below; its meaning is proved in FormatLatenessRoundTrip |
| AdminDashboard.MatchesEmail | src/app/admin/admin.tsx:66-68 | the dashboard's match: the lower-cased e-mail contains the lower-cased term |
| AdminDashboard.CalculateLateness | src/app/admin/admin.tsx:21-25 | no value without a truthy submission time; NaN exactly without a duration; otherwise submission minus start minus duration |
| AdminDashboard.LatenessOfStartedRecord | src/app/admin/admin.tsx:21-25 | for a started record, lateness from the duration equals lateness past the end time |
| AdminDashboard.LatenessNeverShown | src/app/admin/admin.tsx:118-120 | as written, "Late by" is never shown, since the rows carry no duration |
| AdminDashboard.FixedRowLateness | src/app/admin/admin.tsx:118-120 | corrected: lateness is submission time minus end time when all three times are set |
| AdminDashboard.FixedLatenessShownIffLate | src/app/admin/admin.tsx:118-142 | corrected: "Late by" is shown exactly for a submission after the end time |
| AdminDashboard.FormatLatenessRenders | src/app/admin/admin.tsx:27-39 | the lateness text is its hour, minute and second parts joined by spaces |
| AdminDashboard.LatenessPartsSeconds | src/app/admin/admin.tsx:27-39 | the parts add up to the lateness in whole seconds, minutes and seconds below 60 |
| AdminDashboard.FormatLatenessRoundTrip | src/app/admin/admin.tsx:27-39 | the lateness text reads back as parts that add up to the lateness |
| AdminDashboard.SearchCandidates | src/app/admin/admin.tsx:66-68 | exactly the rows whose lower-cased e-mail contains the lower-cased term, each as often, none added |
| AdminDashboard.EmptySearchKeepsAll | src/app/admin/admin.tsx:66-68 | an empty search keeps every row in order |
| AdminDashboard.SearchKeepsOrder | src/app/admin/admin.tsx:66-68 | the search keeps the rows' order: a single row is kept exactly when it matches, and concatenations are searched part by part |
| AdminDashboard.SearchIgnoresTermCase | src/app/admin/admin.tsx:66-68 | the term's case does not matter |
| AllChallenges.FormatMinutes | src/app/admin/challenges/AllChallenges.tsx:27-31 | the label: floored hours, then the sign-keeping remainder as minutes; its meaning is proved in FormatMinutesRoundTrip and NegativeMinutesLabel |
| AllChallenges.FormatMinutesRenders | src/app/admin/challenges/AllChallenges.tsx:27-31 | the label is the hour and minute parts joined by a space |
| AllChallenges.FormatMinutesRoundTrip | src/app/admin/challenges/AllChallenges.tsx:27-31 | the label reads back as hours and minutes below 60 that add up to the minutes |
| AllChallenges.ZeroMinutesLabel | src/app/admin/challenges/AllChallenges.tsx:27-31 | zero minutes reads "0h 0m" |
| AllChallenges.NegativeMinutesLabel | src/app/admin/challenges/AllChallenges.tsx:27-31 | for negative minutes the hours are floored but the remainder keeps the sign, so the label adds up only on whole hours |
| Js.JsRem | src/app/admin/challenges/AllChallenges.tsx:29 | JavaScript `%`: the remainder keeps the dividend's sign and completes the truncating division |
| Js.ParseInt | src/app/admin/create-challenge/CreateChallengeForm.tsx:119 | `parseInt` on a string: optional white space and sign, then a decimal or `0x` numeral read as far as its digits go; NaN as none |
| Js.ParseIntReadsIntToString | src/app/admin/create-challenge/CreateChallengeForm.tsx:119-126 | `parseInt` reads back any integer's decimal text followed by a non-digit |
| CandidateResponses.SearchRows | src/app/admin/challenges/CandidateResponses.tsx:73-77 | exactly the rows whose e-mail or submission contains the term, ignoring case, each as often |
| CandidateResponses.EmptySearchKeepsAll | src/app/admin/challenges/CandidateResponses.tsx:73-77 | an empty search keeps every row in order |
| CandidateResponses.SearchKeepsOrder | src/app/admin/challenges/CandidateResponses.tsx:73-77 | the search keeps the rows' order: a single row is kept exactly when it matches, and concatenations are searched part by part |
| CandidateResponses.SearchWidensEmailSearch | src/app/admin/challenges/CandidateResponses.tsx:73-77 | this search finds everything the dashboard's e-mail search finds, and more only through the submission |
| CandidateResponses.MatchesSearch | src/app/admin/challenges/CandidateResponses.tsx:74-77 | the match: the lower-cased term is in the lower-cased e-mail or in the lower-cased submission when there is one |
| CandidateResponses.Recency | src/app/admin/challenges/CandidateResponses.tsx:79-80 | the sort key: the submission time if truthy, else the start time if truthy, else 0 |
| CandidateResponses.RecencyChain | src/app/admin/challenges/CandidateResponses.tsx:79-80 | the sort key is the first truthy of submission time and start time, else 0 |
| CandidateResponses.SortByRecency | src/app/admin/challenges/CandidateResponses.tsx:78-82 | in place, the rows end up newest first and are a permutation of the rows before |
| CandidateResponses.Sink | src/app/admin/challenges/CandidateResponses.tsx:78-82 | one insertion step: a sorted prefix grows by one row, as a permutation |
| CandidateResponses.FilterAndSort | src/app/admin/challenges/CandidateResponses.tsx:73-82 | the rows shown are exactly the searched rows, each as often, newest first |
| CandidateResponses.ShownDurationSeconds | src/app/admin/challenges/CandidateResponses.tsx:121-123 | the seconds the card's duration line formats, shown only when start and end times are truthy |
| CandidateResponses.ShownDurationIsChallengeDuration | src/app/admin/challenges/CandidateResponses.tsx:121-123 | for a started record, the duration shown on the card for the admin row as written is the challenge's own duration |
| CreateChallengeForm.ValidateEmail | src/app/admin/create-challenge/CreateChallengeForm.tsx:26-29 | `validateEmail`: the matcher on the lower-cased address; equal to the regular expression by ValidateEmailMatchesPattern |
| CreateChallengeForm.FormValid | src/app/admin/create-challenge/CreateChallengeForm.tsx:129-131 | `isFormValid`: a non-empty address that validates, no duration error and a non-empty description |
| CreateChallengeForm.MatcherMatchesPattern | src/app/admin/create-challenge/CreateChallengeForm.tsx:26-29 | the matcher accepts exactly the strings the e-mail regular expression matches |
| CreateChallengeForm.ValidateEmailMatchesPattern | src/app/admin/create-challenge/CreateChallengeForm.tsx:26-29 | `validateEmail` accepts exactly the addresses whose lower-cased form matches the pattern |
| CreateChallengeForm.ValidateEmailIgnoresCase | src/app/admin/create-challenge/CreateChallengeForm.tsx:26-29 | the check does not depend on the address's case |
| CreateChallengeForm.AcceptedEmailShape | src/app/admin/create-challenge/CreateChallengeForm.tsx:26-29 | an accepted address has exactly one '@', no white space and no ':', so its store key splits back to it |
| CreateChallengeForm.ParseDuration | src/app/admin/create-challenge/CreateChallengeForm.tsx:105-127 | exactly one of a value and an error; a formula gives a positive whole number or "Error: Invalid formula"; otherwise `parseInt` gives "Duration must be a number", "Duration must be greater than 0", or the value |
| CreateChallengeForm.ParsesLeadingNumber | src/app/admin/create-challenge/CreateChallengeForm.tsx:119-126 | a typed number followed by text is read as that number; a negative one is refused |
| CreateChallengeForm.InitialDurationIsZero | src/app/admin/create-challenge/CreateChallengeForm.tsx:33-37 | the initial duration "0" parses to 0 without error |
| CreateChallengeForm.Form.constructor | src/app/admin/create-challenge/CreateChallengeForm.tsx:33-37 | an empty form with duration "0" and no template selected |
| CreateChallengeForm.Form.SetEmail | src/app/admin/create-challenge/CreateChallengeForm.tsx:144 | only the e-mail changes |
| CreateChallengeForm.Form.SetDuration | src/app/admin/create-challenge/CreateChallengeForm.tsx:156 | only the duration text changes |
| CreateChallengeForm.Form.HandleTemplateChange | src/app/admin/create-challenge/CreateChallengeForm.tsx:71-80 | selects the first template with the id and copies its content into the description, or clears both |
| CreateChallengeForm.Form.HandleTemplateEdit | src/app/admin/create-challenge/CreateChallengeForm.tsx:82-89 | the description and the selected template's content both become the edited text |
| CreateChallengeForm.Form.ResetForm | src/app/admin/create-challenge/CreateChallengeForm.tsx:91-97 | back to the initial form |
| CreateChallengeForm.Form.HandleSubmit | src/app/admin/create-challenge/CreateChallengeForm.tsx:61-70 | a request is sent exactly when the form is valid and the parsed duration is truthy; it carries a positive duration, a valid e-mail and the non-empty description |
| CreateChallengeForm.SentRequestCanStart | src/app/admin/create-challenge/CreateChallengeForm.tsx:64-68 | a challenge created from a sent request can be started |

## Left out

- I/O and JSON: the HTTP layer, request parsing, JSON encoding and a body that fails to parse (the handlers' 500 path) are not modelled. A non-string `submission` is modelled only through its truthiness.
- Store.Redis.Create: a store failure during create is not modelled, because the create handler has no try/catch. Such a failure surfaces as an unhandled error, not a reply.
- Cryptography: bcrypt hashing and comparing and `crypto.randomBytes` are parameters. The only property assumed is that the compare accepts every text against its own hash. Salting and collision resistance are not modelled.
- Store.Redis.Start and Store.Redis.Submit: `reachable` stands for a store that does not answer at all. A failed write after a successful read also gives 500 in the handlers' catch blocks, with nothing written. The model gives that outcome only through `reachable` being false and does not tell the two failures apart.
- Concurrency: every handler is one atomic fetch, decide and write step. Interleaved requests and `Promise.all` ordering are not modelled.
- CreateChallengeForm.ParseDuration: `eval` itself is a parameter. An `Infinity` result is not one of the modelled formula values, although the code would accept it as a duration.
- Floating point: times are whole milliseconds and durations whole seconds. Fractional seconds in the page's divisions (e.g. the banner's `(submissionTime - startTime) / 1000`) are not modelled.
- Text.Lower: case folding covers ASCII letters only.
- CandidateResponses.SortByRecency: the result is some newest-first permutation. It is not necessarily the one a stable JavaScript sort yields.
- TemplateManager's save: it sends a PUT to `/api/templates`, which only has GET and POST, so only the cache edit after a successful save is modelled. `src/app/api/templates/[id].ts` is not part of this model.
- AllChallenges fetches `/api/challenges`, while the summary route is `/api/challenge`. Only the route and the label formatter are modelled, not the fetch.
- The create form posts to `/api/admin/challenge/create`, while the handler is `/api/challenge/create`. The form's request and the handler are modelled separately.
- Not part of this model: login and admin authentication routes, the e-mail check route, page layout and React rendering, timers and the query cache beyond the edits above, and the older admin components.
- Object records: records the handlers mutate in place are modelled as datatype values that the handlers rebuild.

## Findings

| source | as written | input that shows it | evidently intended | confidence | as-written member | corrected member |
|---|---|---|---|---|---|---|
| src/app/api/admin/candidate/all/route.ts:34-35 | the admin candidate list takes a row's submission and time from `latestSubmission` | any record with a submission: the submit handler writes `submission`/`submissionTime` and never `latestSubmission`, so the row's submission is null | show the stored `submission` and `submissionTime`, as the open candidate list does | high (not executed) | Listings.AdminRowNeverShowsSubmission | Listings.FixedAdminRowShowsSubmission |
| src/app/admin/admin.tsx:118-120 | lateness is computed from `row.duration`, which the rows fetched from `/api/candidate/all` do not carry | a row with start 1000, end 61000 and submission 120000: `undefined * 1000` makes lateness NaN, so "Late by" is not shown | lateness = submission time minus end time, shown when positive | high (not executed) | AdminDashboard.LatenessNeverShown | AdminDashboard.FixedLatenessShownIffLate |
