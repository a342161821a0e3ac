# GYMBLE client rules and CORS tooling, in Dafny

GYMBLE is a gym-management system with a FastAPI backend, a React web
front end and a Flutter app. This project models the parts of it that
decide things without a server behind them:

- **Attendance scanner** (`MobileQRScanner.js`). It chooses check-in or
  check-out from the member's presence status. It routes a manual entry to
  the six-digit-code handler or the QR-payload handler. It finds the member
  id, builds the scan request, maps failures to the message shown, and maps
  the status to the card with its suggested action.
- **Subscription editor** (`SubscriptionManager.js`). It covers the
  two-character search threshold, loading a member into the form, the
  form's field changes, and the guard and payload of the manual update. It
  also covers the membership badge: Unknown, Expired, "N days left", Active,
  or the raw status.
- **Payment settings** (`PaymentSettings.js`). It covers the UPI id '@'
  rule, the drop guards, deleting the QR code, loading the stored settings,
  the submit guard and PATCH payload, and the disabled Save button.
- **CORS diagnostic** (`cors_diagnostic_tool.py`). It covers the GET and
  OPTIONS probe verdicts and reading `ALLOWED_ORIGINS` out of `server.py`.
  That reading includes parsing the list, deciding whether the Flutter web
  origin (`http://localhost:52914`) is admitted, merging the required
  origins in, and formatting the list back. It also models inserting a
  CORSMiddleware block after `app = FastAPI(...)`, and the recommendation
  printed.
- **CORS fix script** (`fix_cors_configuration.py`). It covers the required
  origins missing from the list text, and the new list text with one
  comma-terminated line per missing origin.

Handlers are pure steps. Each takes the component's state and its inputs:
the stored user record, the clock reading, and the server's reply. It
returns the next state, the request it sends (if any) and the message it
shows. The Python tools' regular expressions are modelled as `re.search`
runs them, with the leftmost match, so the CORS properties are stated on
the text of `server.py`.

Some semantics are written out:
- JavaScript truthiness: the empty string is false, and absent JSON fields
  are `Option`.
- JavaScript's UTF-16 `length`.
- The two languages' whitespace classes for `trim()` and `strip()`.
- Python's `split` (`"".split(",") == [""]`).

The server's own attendance rules (the check-in/check-out toggle and
access-code expiry) are not in these files. They are not modelled.

Modules:
- `Wrappers`: `Option`.
- `Text`: substring, strip, split and join, UTF-16 length, decimal text.
- `Seqs`: order-preserving filter.
- `Patterns`: the three regular expressions.
- `CorsFix`, `CorsDiagnostic`, `Scanner`, `Subscriptions`, `Payments`.

## Model

| member | source | states |
|---|---|---|
| Text.Strip | fix_cors_configuration.py:41 | `strip()`/`trim()`: the result is the input minus its leading and trailing whitespace runs; its ends are not whitespace; it is empty exactly when the input is all whitespace |
| Text.Split | cors_diagnostic_tool.py:228 | `split(',')` gives at least one piece; no piece holds a ','; joining the pieces with ',' gives the input back |
| Text.SplitJoin | cors_diagnostic_tool.py:228 | splitting undoes joining when no piece holds the separator |
| Text.Utf16Length | frontend/src/components/SubscriptionManager.js:47 | JavaScript `length` lies between the number of characters and twice that, and equals it when no character is above U+FFFF |
| Seqs.FilterAppend | fix_cors_configuration.py:44-47 | filtering keeps order: filtering a concatenation is the concatenation of the filtered parts |
| Patterns.ListOpenAt | cors_diagnostic_tool.py:225 | a match of `ALLOWED_ORIGINS\s*=\s*\[` at a position starts with the name and ends at a '[' after it |
| Patterns.ListOpenAtSound | cors_diagnostic_tool.py:225 | between the name and that '[' there is exactly one '=' with only whitespace around it |
| Patterns.ListOpenAtComplete | cors_diagnostic_tool.py:225 | conversely, the name, whitespace, '=', whitespace and '[' at a position are always found, with that '[' |
| Patterns.ListMatchAt | fix_cors_configuration.py:33-34 | a match at a position starts with the assignment's opening; the capture runs from after its '[' to the first ']' after it, and is non-empty for `[^\]]+` |
| Patterns.ListMatchAtComplete | fix_cors_configuration.py:33-34 | conversely, an opening followed by a ']' (after at least one character for `[^\]]+`) is a match, capturing up to the first such ']' |
| Patterns.ListCapture | cors_diagnostic_tool.py:225-227 | the captured text holds no ']' and is non-empty for `[^\]]+`; there is none exactly when the pattern matches nowhere |
| Patterns.ListCaptureLeftmost | cors_diagnostic_tool.py:225-227 | the captured text is the capture at the leftmost position where the pattern matches |
| Patterns.ListStatementReadsBack | cors_diagnostic_tool.py:308-312 | an `ALLOWED_ORIGINS = [list]` assignment at the start of the text is read back as exactly `list` by both list patterns |
| Patterns.AppInitEndAt | cors_diagnostic_tool.py:349 | a match of `app\s*=\s*FastAPI\(.*?\)` at a position ends just after a ')' further on |
| Patterns.AppInitEndAtSound | cors_diagnostic_tool.py:349 | such a match has `app`, whitespace, '=', whitespace and `FastAPI(`, then a newline-free run up to the first ')', where it ends |
| Patterns.AppInitEndAtComplete | cors_diagnostic_tool.py:349 | conversely, every such text at a position is a match ending after its first ')' |
| Patterns.AppInitEnd | cors_diagnostic_tool.py:349-354 | the insertion point follows a ')'; there is none exactly when the pattern matches nowhere |
| Patterns.AppInitEndLeftmost | cors_diagnostic_tool.py:349-354 | the insertion point is the end of the match at the leftmost matching position |
| CorsFix.RequiredShape | fix_cors_configuration.py:25-30 | every required origin is double-quoted, holds no ']' and does not end in ',' |
| CorsFix.MissingOrigins | fix_cors_configuration.py:44-47 | a required origin is missing exactly when it is not a substring of the current list text |
| CorsFix.MissingOriginsKeepOrder | fix_cors_configuration.py:44-47 | the missing origins come in the required order: those of a prefix of the required list come first |
| CorsFix.MissingOriginsOnce | fix_cors_configuration.py:44-47 | no origin is listed as missing twice when the required ones are distinct |
| CorsFix.RequiredDistinct | fix_cors_configuration.py:25-30 | the four required origins are distinct |
| CorsFix.AppendFrom | fix_cors_configuration.py:58-61 | the loop keeps what was built, puts `"\n    " + origin` in for every remaining origin, and ends with ',' |
| CorsFix.AppendFromLines | fix_cors_configuration.py:58-61 | for origins not ending in ',' each appended line is exactly `"\n    " + origin + ","` |
| CorsFix.NewList | fix_cors_configuration.py:54-61 | the new list text starts with the current text; a ',' is inserted right after it exactly when the current text is non-empty and does not end in ','; it ends in ','; it holds every missing origin on its own indented line |
| CorsFix.NewListLines | fix_cors_configuration.py:54-61 | the new list text is the separated current text followed by one line per missing origin |
| CorsFix.CurrentList | fix_cors_configuration.py:33-41 | the current list exists exactly when the lazy DOTALL pattern matches; it is that capture with whitespace stripped, and holds no ']' |
| CorsFix.MissingIffAbsent | fix_cors_configuration.py:43-50 | no required origin is missing exactly when every one occurs in the list text |
| CorsFix.RunFix | fix_cors_configuration.py:33-61 | the run fails exactly when the pattern finds no list. It is complete exactly when no required origin is missing. A patch adds exactly the missing origins, in order, each absent from the current text, and its new list is the one built from them |
| CorsFix.PatchKeepsOrigin | fix_cors_configuration.py:54-61 | an origin already in the list, or appended, survives in the stripped new list text |
| CorsFix.PatchCoversRequired | fix_cors_configuration.py:44-61 | after the patch every required origin occurs in the stripped new list text |
| CorsFix.PatchHasNoBracket | fix_cors_configuration.py:54-64 | the new list text holds no ']' when the old one held none |
| CorsFix.RerunFindsNothingMissing | fix_cors_configuration.py:49-51 | running the script again on the assignment it wrote finds every required origin present |
| CorsDiagnostic.GetProbe | cors_diagnostic_tool.py:143-156 | GET success means a 2xx status; a request that raised reports status 0 and failure |
| CorsDiagnostic.OptionsProbe | cors_diagnostic_tool.py:191-205 | OPTIONS success means a 2xx status and an Allow-Origin header that is present |
| CorsDiagnostic.OptionsVerdictsDisagreeOnlyOnEmptyHeader | cors_diagnostic_tool.py:178-195 | the printed OPTIONS verdict (truthy header) and the returned flag (header present) differ exactly on a 2xx response with an empty header |
| CorsDiagnostic.CheckAllowOrigin | cors_diagnostic_tool.py:133-141 | no check without an Origin; no header or an empty one means no CORS headers; the header allows the origin exactly when it equals it or is '*' |
| CorsDiagnostic.Preview | cors_diagnostic_tool.py:146 | a body of up to 200 characters is kept whole; a longer one is cut to 200 characters plus "..." |
| CorsDiagnostic.ParseOrigins | cors_diagnostic_tool.py:227-228 | one entry per ','-separated piece, at least one, each the piece with spaces and quotes stripped from both ends; so no entry holds ',' or starts or ends with a space or a quote |
| CorsDiagnostic.ParseOriginsWithout | cors_diagnostic_tool.py:225-228 | a character absent from the captured text is absent from every parsed entry |
| CorsDiagnostic.Analyze | cors_diagnostic_tool.py:220-263 | the middleware flag is the substring test; origins are empty exactly when there is no middleware or no non-empty list; otherwise they are the parsed list; the Flutter flag is the Flutter predicate over them |
| CorsDiagnostic.AnalyzeFile | cors_diagnostic_tool.py:211-218 | an unreadable or missing `server.py` yields no analysis |
| CorsDiagnostic.MissingFrom | cors_diagnostic_tool.py:302-304 | an origin to add is appended exactly when no current entry contains it |
| CorsDiagnostic.MissingFromKeepsOrder | cors_diagnostic_tool.py:292-304 | appended origins keep the order of the list of origins to add |
| CorsDiagnostic.Merge | cors_diagnostic_tool.py:299-304 | the current entries are an unchanged prefix, followed by exactly the uncovered origins to add, in their order. Every origin to add ends up covered |
| CorsDiagnostic.MergeAppendsOnce | cors_diagnostic_tool.py:292-304 | no origin to add is appended twice |
| CorsDiagnostic.MergeCovered | cors_diagnostic_tool.py:302-304 | merging into entries that already cover every origin to add changes nothing |
| CorsDiagnostic.MergeIdempotent | cors_diagnostic_tool.py:302-304 | merging a merged list again appends nothing |
| CorsDiagnostic.NonBlank | cors_diagnostic_tool.py:307 | the kept entries are exactly the entries that are not blank after `strip()` |
| CorsDiagnostic.FormattedShape | cors_diagnostic_tool.py:307-308 | the formatted list of plain entries, with at least one non-blank, is non-empty and holds no ']', so the list pattern can read it back |
| CorsDiagnostic.ParseFormatted | cors_diagnostic_tool.py:307-308 | parsing the formatted list gives back the non-blank entries, when there is at least one and no entry holds ',' or starts or ends with a space or quote |
| CorsDiagnostic.ParseJoined | cors_diagnostic_tool.py:228 | splitting a ", "-joined list of quoted entries and stripping each piece recovers the entries |
| CorsDiagnostic.Fix | cors_diagnostic_tool.py:269-367 | each outcome holds exactly in its case: no analysis; middleware and a list found (rewritten to the formatted merge); middleware and no list; no middleware and an app match (the block inserted at the match's end, the content around it unchanged); no middleware and no app match |
| CorsDiagnostic.InsertBlock | cors_diagnostic_tool.py:354-355 | the content before the insertion point, the block, then the rest of the content |
| CorsDiagnostic.InsertionIsNotRepeated | cors_diagnostic_tool.py:221-355 | after the insertion, re-analysis finds the middleware, so the tool neither recommends adding it nor inserts it again |
| CorsDiagnostic.Recommend | cors_diagnostic_tool.py:370-399 | the file check is advised exactly when there is no analysis; adding middleware exactly when it is missing |
| CorsDiagnostic.OfferMatchesRecommendation | cors_diagnostic_tool.py:440 | the fix is offered exactly when the recommendation asks for a change to `server.py` |
| CorsDiagnostic.MergedNonBlankCovers | cors_diagnostic_tool.py:292-307 | the non-blank merged entries are not empty, admit the Flutter origin and cover every origin to add |
| CorsDiagnostic.MergedStatementReadsBack | cors_diagnostic_tool.py:307-312 | re-analysing the written assignment gives the non-blank merged entries |
| CorsDiagnostic.RewriteStartsPlain | cors_diagnostic_tool.py:225-228 | the entries a rewrite starts from hold no ',' or ']' and have nothing to strip |
| CorsDiagnostic.RewriteSettlesAnalysis | cors_diagnostic_tool.py:440 | once rewritten, re-analysis admits the Flutter origin, offers no further fix, and a second merge writes the same entries |
| Scanner.NextAction | frontend/src/components/MobileQRScanner.js:42 | the scan sends check-out exactly when the status is `checked_in` |
| Scanner.ManualRoute | frontend/src/components/MobileQRScanner.js:80-87 | an all-whitespace entry is not routed. The numeric handler gets exactly the entries that trim to six ASCII digits. The QR handler gets every other entry |
| Scanner.RouteIgnoresPadding | frontend/src/components/MobileQRScanner.js:80-86 | whitespace around an entry changes neither its route nor the code sent |
| Scanner.ResolveMemberId | frontend/src/components/MobileQRScanner.js:45-50 | `id` is used when non-empty, else `member_id`. A record with neither fails with the log-in-again message. An unreadable record fails with its own message |
| Scanner.ErrorText | frontend/src/components/MobileQRScanner.js:66-72 | a detail mentioning `membership_status` shows the inactive text. Otherwise the detail is shown, else the error message, else the fallback. The text is never empty |
| Scanner.Scan | frontend/src/components/MobileQRScanner.js:33-76 | a request is sent exactly when the member id resolves, with the code, the clock reading and the next action. The error is cleared exactly on an accepted scan, which shows the success notice and takes the refreshed status. Otherwise the error shown is the mapped text of the lookup's message, or of the server's detail and message |
| Scanner.ManualSubmit | frontend/src/components/MobileQRScanner.js:78-90 | a blank entry changes nothing and sends nothing; any other is routed and handed to the scan handler as its trimmed text, whose state, request and notice it keeps, and the field is cleared |
| Scanner.RoutesSendAlike | frontend/src/components/MobileQRScanner.js:111-117 | both routes post the same request shape, with the code in `qr_code` |
| Scanner.EnabledSubmitIsHandled | frontend/src/components/MobileQRScanner.js:288 | an enabled submit button always routes the entry and clears the field |
| Scanner.StatusDisplayFor | frontend/src/components/MobileQRScanner.js:151-181 | a card is shown exactly for the three known statuses |
| Scanner.DisplayAgreesWithScan | frontend/src/components/MobileQRScanner.js:154-178 | a card's suggested action is the action the next scan sends |
| Scanner.NextActionHint | frontend/src/components/MobileQRScanner.js:319-321 | the hint names CHECK IN or CHECK OUT to match the card's action |
| Subscriptions.SearchChange | frontend/src/components/SubscriptionManager.js:43-59 | the query is stored. A search is scheduled exactly when it has at least two code units. A shorter query clears the results and the searching flag |
| Subscriptions.SearchThresholdForPlainText | frontend/src/components/SubscriptionManager.js:47 | without characters above U+FFFF the threshold is two characters |
| Subscriptions.OneAstralCharacterSearches | frontend/src/components/SubscriptionManager.js:47 | a single character above U+FFFF already starts a search |
| Subscriptions.SearchDone | frontend/src/components/SubscriptionManager.js:62-71 | found members replace the results; the searching flag is cleared either way |
| Subscriptions.SearchChangeHidesShortQueryResults | frontend/src/components/SubscriptionManager.js:55-57 | after any query change a short query lists no results |
| Subscriptions.StaleSearchListsResultsForShortQuery | frontend/src/components/SubscriptionManager.js:50-54 | a search scheduled for "ab" and answered after the query is cut to "a" lists results under the short query |
| Subscriptions.SearchAnswered | frontend/src/components/SubscriptionManager.js:50-54 | an answer for a query no longer in the box changes nothing; a current one replaces the results |
| Subscriptions.SearchAnsweredHidesShortQueryResults | frontend/src/components/SubscriptionManager.js:55-57 | with stale answers dropped, a short query never lists results |
| Subscriptions.SelectMember | frontend/src/components/SubscriptionManager.js:74-85 | the member is loaded and the query becomes their name. The results are emptied. The plan is their plan or ''. The reason is ''. The expiry is their end date, or now when they have none |
| Subscriptions.InputChange | frontend/src/components/SubscriptionManager.js:88-94 | only the named field changes |
| Subscriptions.DateChange | frontend/src/components/SubscriptionManager.js:97-102 | only the expiry changes |
| Subscriptions.CancelEdit | frontend/src/components/SubscriptionManager.js:300-306 | the member is unloaded and the query cleared; results and form are kept |
| Subscriptions.Submit | frontend/src/components/SubscriptionManager.js:105-138 | nothing is sent without a member or with a date that `toISOString` rejects. The request carries the member id, expiry and plan, and a reason only when non-empty. Success resets member, query and form. Failure keeps the state and shows the detail or the fallback |
| Subscriptions.SuccessfulSubmitIsNotRepeated | frontend/src/components/SubscriptionManager.js:125-132 | after a successful update a second submit sends nothing and asks for a member |
| Subscriptions.FormSubmit | frontend/src/components/SubscriptionManager.js:249-276 | the form's submit is blocked exactly while the required plan select holds its empty first option; otherwise it runs the submit handler |
| Subscriptions.FormNeverPostsEmptyPlan | frontend/src/components/SubscriptionManager.js:269-276 | every update request the form lets through carries the chosen, non-empty plan |
| Subscriptions.SelectThenSubmit | frontend/src/components/SubscriptionManager.js:74-121 | when the member's plan, if any, is one of the loaded plans, selecting then submitting is blocked exactly when the member has no plan; otherwise it posts the member's id, their plan and no reason, with the expiry the form started from |
| Subscriptions.MembershipStanding | frontend/src/components/SubscriptionManager.js:151-169 | Unknown exactly without a member or end date. The raw status is shown exactly when it is not 'active'. The countdown is shown for 0..7 days, Expired below 0, Active above 7 or for NaN |
| Subscriptions.ActiveBandsPartition | frontend/src/components/SubscriptionManager.js:158-165 | for an active member the three day bands partition the integers |
| Subscriptions.DaysLeftTextReadsBack | frontend/src/components/SubscriptionManager.js:162 | the countdown text is one decimal digit for the count followed by " days left" |
| Subscriptions.NaNDaysShowActive | frontend/src/components/SubscriptionManager.js:156-164 | an unparseable end date on an active member shows Active |
| Payments.UpiChange | frontend/src/components/PaymentSettings.js:46-55 | the value is always stored; the error is set exactly when the value is non-empty and has no '@'; nothing else changes |
| Payments.UpiChangeAgrees | frontend/src/components/PaymentSettings.js:50-54 | after an edit the field's error agrees with the '@' rule |
| Payments.Drop | frontend/src/components/PaymentSettings.js:58-75 | no file changes nothing. A non-image only sets the error and keeps the staged file. An image is staged and its data URL becomes the preview |
| Payments.DeleteQr | frontend/src/components/PaymentSettings.js:137-140 | the staged file and the preview are cleared and nothing else changes |
| Payments.Submit | frontend/src/components/PaymentSettings.js:86-134 | an id breaking the '@' rule is flagged and nothing is sent. The PATCH carries `upi_id` exactly when the id is non-empty, and `qr_code` exactly when a file is staged. Success and failure set their messages |
| Payments.Load | frontend/src/components/PaymentSettings.js:18-40 | a non-empty stored id or QR code replaces the field, while an empty or absent one leaves it as it was; a failed fetch only sets the load error |
| Payments.HandlersKeepAgreement | frontend/src/components/PaymentSettings.js:58-140 | dropping, deleting and submitting keep the field's error in agreement with the '@' rule |
| Payments.SaveEnabledIffIdPasses | frontend/src/components/PaymentSettings.js:220 | while the error agrees and nothing loads, Save is enabled exactly when the id passes the '@' check, and then a readable submit sends |
| Payments.LoadSkipsUpiCheck | frontend/src/components/PaymentSettings.js:26-28 | from any state whose id field is unflagged, any stored non-empty id without '@' loads unflagged, leaves Save enabled, and is caught only by the submit check, whatever QR code is stored and whatever the server would reply |
| Payments.DeleteThenSaveSendsNoQr | frontend/src/components/PaymentSettings.js:107-119 | a save after deleting the QR code sends no `qr_code`; what the server keeps is not modelled |

## Left out

- HTTP requests, `localStorage`, `alert`, `console`, React rendering, hooks and state batching are not modelled. Handlers take the server's reply and the stored user as inputs.
- Transient flags that only live while a request is awaited are left out. These are `loading` in SubscriptionManager.js and the `scanning`/`loading` set at the start of a handler. Only their final values are modelled.
- The search debounce timer is not modelled as timing. Only its effect is modelled: a search per searchable query, answered later.
- Date parsing, `toISOString`, `toLocaleDateString`/`toLocaleTimeString` and the `Math.ceil` day arithmetic are not modelled. Dates are millisecond instants or `NotADate`. The day count is an input.
- Subscriptions.Submit: an instant is an unbounded integer, but JavaScript dates stop at ±8.64e15 ms. Beyond that range `toISOString` (SubscriptionManager.js:118) throws a RangeError, and the `catch` turns it into the generic failure alert with nothing posted. The model handles only `NotADate` that way and posts an out-of-range instant.
- Scanner.StatusDisplayFor: the card's message line ("Since: <time>", "Duration: <n> minutes") depends on time formatting and is not modelled.
- Scanner.ResolveMemberId: ids are strings; a numeric `id` (truthy unless 0) is not modelled.
- Payments.Drop: the `FileReader` result is taken as available before the next event; the asynchronous order is not modelled.
- CorsDiagnostic.Fix: the whole-file `re.sub` (cors_diagnostic_tool.py:313) and the write-back are not modelled. A rewrite is described by the new assignment text. `re.sub` replaces every match, not only the first, and it reads the assignment as a replacement template: a backslash in an entry is an escape there (`\n` becomes a newline, while `\1` raises `re.error` as an invalid group reference, because this pattern has no group, and so does an escaped ASCII letter such as `\d`). The file holds the modelled text only when the entries have no backslash.
- CorsFix.RunFix: the same applies to the `re.sub` at fix_cors_configuration.py:64. Every match is replaced, and backslashes in the list text are read as template escapes: `\1` inserts the match's one group, while `\d` and the like raise `re.error`, which nothing catches, so the script stops. The patch is described by the new list text, which is what the file holds only when the list has no backslash.
- CorsDiagnostic.RewriteSettlesAnalysis: the rewritten assignment is re-analysed placed at the start of the text, not inside the file `re.sub` produces.
- CorsFix.RerunFindsNothingMissing: likewise stated for the written assignment at the start of the text, so it says nothing about a list with a backslash, which `re.sub` rewrites or rejects.
- Subscriptions.FormSubmit: only the empty plan option is modelled as blocking. A plan id that matches none of the loaded options is treated as chosen; the browser's handling of such a select value is not modelled.
- Subscriptions.SelectThenSubmit: inherits the FormSubmit abstraction. When the member's `plan_id` is not among the loaded plans (for instance after a failed `fetchPlans`, whose error is only logged and leaves the list empty), the select shows its empty first option and the browser blocks the submit, which the model does not; the contract is stated for a plan that is one of the loaded options.
- Scanner.ErrorText: the server's `detail` is taken to be a string. A FastAPI validation error carries a list there, where `.includes` tests list membership and the list itself would become the error; a non-string detail without `.includes` throws inside the `catch`. Neither case is modelled.
- File existence checks, backups, log files, console colours, `input()` prompts, the dependency installer and the server-running probe are not modelled. `server.py` content is an input.
- The end-to-end probe scripts and `PaymentSettings.test.js` are not used. The test file's expected texts differ from the component's, and the component is followed.
- The server's attendance toggle and access codes are not part of these files and are not modelled.

## Findings

| source | as written | input that shows it | evidently intended | confidence | as-written member | corrected member |
|---|---|---|---|---|---|---|
| frontend/src/components/SubscriptionManager.js:50-54 | the timer cleanup returned from an event handler is discarded, so every scheduled search still runs and its answer is applied to whatever query is in the box | type "ab", then delete to "a" within 300 ms; the search for "ab" answers with a member | a query change cancels the pending search, so a short query never lists results (line 56 clears them) | medium, not executed | Subscriptions.StaleSearchListsResultsForShortQuery | Subscriptions.SearchAnswered |
