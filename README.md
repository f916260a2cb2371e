# dscalendar days-off core, in Dafny

dscalendar is a small shift-scheduling service that runs as Netlify
functions. Users log in through the Telegram login widget. An admin assigns
each new user one of three working shifts: Night, Morning or Evening.

Approved users request days off in two ways:

- through the single `api.js` endpoint, with `?action=request-days-off`;
- through the older `days-off-create-read.js` function.

Each request runs in one transaction that checks two limits:

- **the personal quota:** at most 4 pending plus approved requests per user;
- **the shift cap:** a date is refused once it has 2 approved requests
  among the users of the caller's shift.

This project models four files of `netlify/functions`: `api.js`,
`days-off-create-read.js`, `auth-telegram.js` and `admin-approve-user.js`.
It covers:

- the four handlers;
- the session gate in front of them;
- the Telegram signature check;
- the login upsert;
- the pending-user approval;
- the month calendar;
- the admission loop.

Every handler call is one atomic step on a store of two tables, `users` and
`days_off`. The store's schema constraints are kept as an invariant:

- each (user, date) pair appears at most once;
- every request's owner exists;
- each stored date is a real calendar date.

## Modules

| module | what it holds |
|---|---|
| `Options`, `JsStrings`, `Sorting`, `Json` | The JavaScript values the handlers work on. Strings are sequences of UTF-16 code units, with the default `sort` order, `split`, `join` and `trim`. JSON values have `String(v)` and truthiness. |
| `PgInput` | How Postgres reads the parameters it is given: BIGINT, TEXT and DATE. It also holds `TO_CHAR(date, 'YYYY-MM-DD')`. |
| `Domain` | The rows, the schema constraints and the counting queries. |
| `Http` | The request event, the configuration and the responses. |
| `Session` | `verifyUser` and `verifyAdmin`. |
| `Telegram` | `verifyTelegramHash`. |
| `Identity` | Admin detection, the login upsert and the session claims. |
| `Approval` | The validation and conditional update of `admin-approve-user`. |
| `Calendar` | `shiftDayCounts` and `myDaysOff`. |
| `Admission` | The request-days-off decision, as a function of the store. |
| `Database` | The class `Store`, whose methods update the two tables in place. These include the insert loop with its snapshot and rollback. |
| `Api`, `DaysOffCreateRead`, `AuthTelegram`, `AdminApproveUser` | One module per handler file. Each has a function giving the reply as a (response, new tables) pair, and a module-level `Handler` method that takes the `Store`. Each method is proved to produce exactly that reply. `Api` and `DaysOffCreateRead` also have a pure routing function; the other two handlers decide inline. |

Several things are parameters of `Http.Config`:

- the cryptography: SHA-256 and HMAC-SHA256;
- JWT verification;
- the environment variables.

`JSON.parse` is represented by the event's `body: Option<Json>`, where
`None` means the parse threw.

Some behaviours of the code are kept as written:

- **No rollback on an empty or missing date array.** Here
  `handleRequestDaysOff` returns 400 after `BEGIN` with no `ROLLBACK`
  (api.js:85). Nothing has been written at that point, so the tables are
  unchanged.
- **Duplicates count twice against the quota.** A date listed twice counts
  twice, because the check uses `dates.length`. It also fails the second
  insert on the unique constraint, so the whole batch answers 500. No
  separate duplicate error exists.
- **The cap is not enforced afterwards.** It is checked only at submission
  time, against approved rows, and pending rows never count toward it. No
  code in these files approves or rejects a day-off request, and nothing
  re-checks the cap later.
- **Different answers for a missing session:**
  - `api.js` answers 401;
  - `days-off-create-read.js` answers 403;
  - `admin-approve-user.js` answers 403.
- **Missing method checks in `api.js`.** It checks no method for the admin
  actions, for `get-calendar` or for `request-days-off`.
- **Unknown and approved users are not distinguished.** An unknown user and
  an already approved user both give 404 on approval.
- **Login errors leak detail.** `auth-telegram.js` puts `err.message` in its
  500 body. Message texts are not modelled.

## Model

| member | source | states |
|---|---|---|
| JsStrings.UnitsLeTotal | netlify/functions/api.js:11 | Any two strings are comparable in the default sort order |
| JsStrings.UnitsLeAntisymmetric | netlify/functions/api.js:11 | Two strings ordered both ways are equal |
| JsStrings.UnitsLeTransitive | netlify/functions/api.js:11 | The default sort order is transitive |
| JsStrings.Split | netlify/functions/api.js:27 | `split(c)` yields at least one piece, and no piece contains `c` |
| JsStrings.JoinSplit | netlify/functions/api.js:27 | Joining the pieces of `split(c)` with `c` gives back the string |
| JsStrings.SplitJoin | netlify/functions/auth-telegram.js:37 | Splitting a comma-joined list of comma-free entries gives back the entries |
| JsStrings.TrimStart | netlify/functions/auth-telegram.js:37 | The result is a suffix of the input; everything removed is whitespace, and the result does not start with whitespace |
| JsStrings.TrimEnd | netlify/functions/auth-telegram.js:37 | The result is a prefix of the input; everything removed is whitespace, and the result does not end with whitespace |
| JsStrings.Trim | netlify/functions/auth-telegram.js:37 | `trim()` is no longer than its input, and neither starts nor ends with whitespace |
| JsStrings.TrimIsSlice | netlify/functions/auth-telegram.js:37 | `trim()` leaves a contiguous slice of its input, and everything before and after that slice is whitespace |
| JsStrings.TrimIdempotent | netlify/functions/api.js:27 | Trimming twice equals trimming once |
| JsStrings.DigitsValueOfDigits | netlify/functions/api.js:70 | `parseInt(text, 10)` of the decimal text of a count gives the count back |
| Sorting.InsertSorted | netlify/functions/api.js:11 | Inserting into a sorted list keeps it sorted and adds exactly that element |
| Sorting.Sort | netlify/functions/auth-telegram.js:14 | `sort()` gives a sorted permutation of its input |
| Sorting.SortedUnique | netlify/functions/auth-telegram.js:14 | Two sorted lists with the same elements are equal |
| Sorting.SortPermutationInvariant | netlify/functions/auth-telegram.js:11-14 | Sorting two permutations of a list gives the same list |
| Json.Lookup | netlify/functions/api.js:11 | `obj[key]` is defined iff some field has that key, and then it is the value of a field with that key |
| Json.LookupDistinct | netlify/functions/api.js:13 | When keys do not repeat, a lookup finds `v` iff the field `key: v` is present |
| Json.LookupAppend | netlify/functions/api.js:13 | A lookup in two lists of fields takes the second list's value when there is one, and the first list's otherwise |
| Json.LookupLastWins | netlify/functions/api.js:13 | Of several fields with the same key, the lookup sees the last, as `JSON.parse` keeps the last |
| Json.Stringify | netlify/functions/api.js:11 | `String(v)` of a string is the string itself. An empty array gives the empty string. A one-element array gives its element's text, or empty for `null`. |
| Json.Falsy | netlify/functions/admin-approve-user.js:36 | JavaScript truthiness: an array or object is never falsy, a number is falsy iff 0, a string iff empty, a boolean iff `false` |
| PgInput.ParseInteger | netlify/functions/admin-approve-user.js:40 | Integer input is accepted iff the text is one or more digits, optionally after one `+` or `-`. The value is the digits' decimal value, negated after `-`. |
| PgInput.ParseIntegerOfDecimal | netlify/functions/auth-telegram.js:60 | The BIGINT read of `String(n)` is `n` |
| PgInput.BigintParam | netlify/functions/admin-approve-user.js:40 | A BIGINT parameter lies within the signed 64-bit range, and a JSON number in that range is taken as is (exact for the integers a double holds, those of magnitude at most 2^53) |
| PgInput.TextParam | netlify/functions/auth-telegram.js:60 | A TEXT parameter is NULL exactly for `null` and `undefined` |
| PgInput.ParseIsoDate | netlify/functions/days-off-create-read.js:85 | Any date read from text is a real calendar date |
| PgInput.DateParam | netlify/functions/api.js:95 | Any date a `dates` element denotes is a real calendar date |
| PgInput.IsoDateRoundTrip | netlify/functions/days-off-create-read.js:28 | Reading back `TO_CHAR(date, 'YYYY-MM-DD')` gives the same date |
| PgInput.FormatIsoDateLayout | netlify/functions/days-off-create-read.js:28 | `TO_CHAR(date, 'YYYY-MM-DD')` is ten units: four digits spelling the year, a dash, two digits spelling the month, a dash, two digits spelling the day |
| Domain.InsertKeepsInvariant | netlify/functions/setup-database.js:34-40 | A request that passes UNIQUE(user_id, date) and the owner reference keeps every table constraint |
| Domain.CountAppend | netlify/functions/api.js:86 | A COUNT over two runs of rows is the sum of the two counts |
| Domain.CountPositive | netlify/functions/days-off-create-read.js:28-34 | A COUNT is positive iff some row matches |
| Domain.QuotaCount | netlify/functions/api.js:86-88 | A user's pending-plus-approved count is positive iff the user has some request, since every request is pending or approved |
| Domain.ShiftApprovedCount | netlify/functions/api.js:94-96 | A date's count for a shift is positive iff some approved request on that date belongs to an existing user of that shift |
| Domain.RequestRows | netlify/functions/api.js:101 | A batch adds one row per date |
| Admission.DatesArgumentOf | netlify/functions/api.js:84-85 | The body is unreadable iff it is missing or `null`. Otherwise `dates` is a list iff the body's `dates` property is an array, and then it holds that array's elements. It is "not an array" otherwise. |
| Admission.DateParams | netlify/functions/api.js:93-95 | There is one DATE parameter per element of `dates`, and the i-th is Postgres' DATE reading of the i-th element |
| Admission.Present | netlify/functions/api.js:93 | When every date is readable, the present dates are all of them, in order |
| Admission.AdmitBatch | netlify/functions/api.js:93-102 | The insert loop never answers "no dates" or "quota exceeded". A date it reports full was requested, and had at least 2 approved requests in the caller's shift before the call. |
| Admission.Admit | netlify/functions/api.js:84-92 | Gives "invalid dates" iff there is no non-empty array. Gives "quota exceeded" iff the pending plus approved count plus `dates.length` exceeds 4, and then carries that count. An unparsable body is a store failure. |
| Admission.Committed | netlify/functions/api.js:101 | The rows a committed call adds are exactly the caller's pending rows for the readable dates of the array |
| Admission.AdmissionResponse | netlify/functions/days-off-create-read.js:62-104 | Answers 201 iff created, 500 iff a store failure, and 400 iff no dates, over the quota or a full date. Over the quota, the body carries the current count. |
| Admission.AdmissionReply | netlify/functions/api.js:79-111 | The users table never changes, and every outcome but 201 leaves both tables as they were |
| Admission.PendingRowKeepsCount | netlify/functions/api.js:94-101 | A pending row inserted earlier in the batch never changes any date's approved count |
| Admission.HoldsAfterInsert | netlify/functions/setup-database.js:39 | After an insert, the user holds exactly the dates held before plus the inserted one |
| Admission.AdmitBatchCreatedIff | netlify/functions/api.js:93-103 | The loop commits iff every date is readable, not held by the caller and not listed twice, the caller's row exists, and no date had 2 approved requests in the caller's shift before the call |
| Admission.AdmitBatchFullDate | netlify/functions/api.js:93-100 | When the dates before a full one would all be inserted, the loop answers that the full date is unavailable |
| Admission.AdmissiblePrefixStep | netlify/functions/api.js:93-101 | When the first date and the ones after it up to `i` would all be inserted, the loop goes on from the second date with the first row added. That row changes no approved count and adds only its own date to what the caller holds. |
| Admission.AdmitBatchStoreFailure | netlify/functions/api.js:93-107 | When the dates before the i-th would all be inserted, and the i-th is unreadable, or is below the cap but its INSERT is refused (a missing caller row, a date already held, a repeat within the batch), the loop answers a store failure, whatever comes after |
| Admission.StoreFailureReply | netlify/functions/days-off-create-read.js:85-104 | Within the quota, such a date gives 500, and the tables are as before the call |
| Admission.AdmissionKeepsApprovedCounts | netlify/functions/days-off-create-read.js:79-96 | A committed batch leaves every approved count of every shift on every date unchanged |
| Admission.AdmitCreatedWithinQuota | netlify/functions/api.js:86-104 | A committed call had a non-empty array of readable dates. It adds exactly one row per listed date, and the caller's new quota count is the old count plus `dates.length`, at most 4. |
| Admission.QuotaExceededReply | netlify/functions/api.js:89-92 | Over the quota, the reply is 400 with the current count, and the tables are unchanged |
| Admission.FullDateUnavailableReply | netlify/functions/days-off-create-read.js:74-91 | Within the quota, a full date reached after insertable dates answers 400 as unavailable, and the rows inserted before it are rolled back |
| Admission.FullDateReply | netlify/functions/days-off-create-read.js:88-91 | A batch containing a full date answers 400 or 500, and no row of it remains |
| Admission.FullDateBlocksBatch | netlify/functions/api.js:97-100 | A batch containing a full date is never committed |
| Session.VerifyUser | netlify/functions/days-off-create-read.js:8-18 | Gives no claims without a non-empty session token, and the verifier's result otherwise |
| Session.VerifyAdmin | netlify/functions/admin-approve-user.js:8-19 | True iff there is a session token and it verifies to claims with `isAdmin` |
| Telegram.UnsignedLines | netlify/functions/auth-telegram.js:11-13 | The lines are exactly the `key=value` lines of the fields other than `hash` |
| Telegram.CheckString | netlify/functions/auth-telegram.js:11-15 | When the lines are non-empty and contain no newline, splitting the check string on newlines gives back the sorted lines |
| Telegram.UnsignedLinesPermutation | netlify/functions/auth-telegram.js:11-13 | Reordering the payload's fields only reorders the lines |
| Telegram.CheckStringOrderIndependent | netlify/functions/auth-telegram.js:11-15 | The check string does not depend on the order of the payload's keys |
| Telegram.CheckStringIgnoresHash | netlify/functions/auth-telegram.js:12 | A `hash` field anywhere in the payload leaves the check string unchanged |
| Telegram.SignatureDependsOnLines | netlify/functions/api.js:10-12 | The HMAC the server computes depends only on the multiset of `key=value` lines other than `hash`, so neither their order nor the `hash` field changes it |
| Telegram.VerifyTelegramHash | netlify/functions/auth-telegram.js:9-18 | Only an object carrying a `hash` can pass |
| Telegram.VerifyIffSignedRest | netlify/functions/api.js:9-14 | A payload passes iff its `hash` equals the HMAC, keyed by the bot token's SHA-256, of the check string of the other fields |
| Telegram.VerifyOrderIndependent | netlify/functions/api.js:9-14 | Whether a payload passes does not depend on the order of its keys |
| Identity.AdminIds | netlify/functions/api.js:27 | The admin list has at least one entry and no entry contains a comma. With the variable unset it is the single empty string. |
| Identity.IsAdminId | netlify/functions/api.js:28 | An id whose `String` contains a comma is never an admin's. With ADMIN_TELEGRAM_ID unset, an id is an admin's iff its `String` is empty. |
| Identity.AdminIdsOfList | netlify/functions/auth-telegram.js:37-40 | An id is an admin's iff `String(id)` equals some configured entry, trimmed |
| Identity.AdminIdsOfEntries | netlify/functions/auth-telegram.js:37 | A configured list of comma-free entries yields exactly those entries, each trimmed |
| Identity.Upserted | netlify/functions/auth-telegram.js:47-58 | The stored row has the login's profile fields and `is_admin`. An admin is never left pending. An existing shift changes only from pending, and only to Morning. |
| Identity.UpsertUsers | netlify/functions/auth-telegram.js:47-60 | After the upsert the user exists with the new profile fields and `is_admin`, and no other row changes |
| Identity.UpsertShift | netlify/functions/auth-telegram.js:43-58 | A new user starts as Morning if an admin and pending otherwise. An existing shift changes iff it was pending and the user is an admin, and then to Morning. |
| Identity.UpsertIdempotent | netlify/functions/auth-telegram.js:47-60 | Upserting the same login twice equals upserting it once |
| Identity.ReadLogin | netlify/functions/auth-telegram.js:26-60 | Three error cases:<br>- "Unparsable" iff the body is missing or `null`;<br>- a hash failure iff the payload does not verify;<br>- "Unstorable" iff a verified payload has no BIGINT `id` or a NULL `first_name`.<br>A login has a verified payload and the BIGINT of `id`. Its profile is the TEXT of `first_name`, `last_name` and `username`, and `isAdmin` holds iff the id is in the admin list. |
| Identity.LoginReply | netlify/functions/auth-telegram.js:25-97 | `days_off` never changes. Any answer but 200 leaves `users` unchanged. The answer is 403 iff the hash fails. |
| Identity.LoginSession | netlify/functions/auth-telegram.js:62-71 | After a successful login the user is stored as upserted, and the claims carry the stored shift and `is_admin` rather than the initial shift |
| Identity.LoginReplay | netlify/functions/api.js:30-42 | Replaying a login gives the same response and leaves the tables as after the first call |
| Approval.WorkingShift | netlify/functions/admin-approve-user.js:36 | Only the strings "Night", "Morning" and "Evening" are accepted, never pending |
| Approval.WorkingShiftOfName | netlify/functions/api.js:129 | Each working shift is accepted under its own name |
| Approval.ReadApproval | netlify/functions/admin-approve-user.js:34-40 | Three error cases:<br>- "Unparsable" iff the body is missing or `null`;<br>- "Invalid" iff `userId` is falsy or `shift` is not a working shift;<br>- "BadUserId" iff a valid `userId` has no BIGINT reading.<br>An approval carries the BIGINT of `userId` and the working shift `shift` names. |
| Approval.ApproveUsers | netlify/functions/admin-approve-user.js:40-44 | A row matches iff the user exists and is pending |
| Approval.ApprovalOnlyTarget | netlify/functions/admin-approve-user.js:40 | The update changes only the target's shift: same ids, every other row unchanged, the target's profile and admin flag kept |
| Approval.ApprovalReply | netlify/functions/api.js:124-140 | `days_off` never changes. Any answer but 200 leaves the tables unchanged. The answer is 400 iff the input is invalid, and 404 iff no pending row with that id exists. |
| Approval.ApprovalSucceeds | netlify/functions/admin-approve-user.js:34-49 | A 200 approval means three things: the body's `userId` reads as a user who was pending, the body's `shift` is the name of a working shift, and that user now has exactly that shift. |
| Calendar.GroupDates | netlify/functions/days-off-create-read.js:27-34 | The groups are exactly the dates of the matching rows, each once |
| Calendar.ShiftGroups | netlify/functions/days-off-create-read.js:27-36 | There is one result row per group |
| Calendar.CountsByDate | netlify/functions/days-off-create-read.js:38-41 | The fold's keys are exactly the printed dates of the result rows |
| Calendar.FormatIsoDateInjective | netlify/functions/api.js:68 | Distinct dates print differently |
| Calendar.CountsByDateValue | netlify/functions/days-off-create-read.js:38-41 | Each result row's printed date maps to its count |
| Calendar.ShiftDayCounts | netlify/functions/api.js:68-70 | Every key is the printed date of an approved request of the queried month and year, owned by a user of the shift |
| Calendar.ShiftDayCountsSpec | netlify/functions/days-off-create-read.js:27-41 | A date is a key iff it lies in the queried month and year and has at least one approved request in the caller's shift. Its value is that number of requests. |
| Calendar.MyDaysOff | netlify/functions/days-off-create-read.js:44-49 | Lists exactly the caller's requests, from every month, each with its printed date and status |
| Calendar.CalendarReply | netlify/functions/days-off-create-read.js:20-58 | Changes nothing. Gives 400 iff month or year is missing or empty, and 500 iff one is not an integer. On 200 it gives the shift counts and the caller's requests. |
| Database.Store.constructor | netlify/functions/setup-database.js:21-40 | The tables start empty and satisfy the constraints |
| Database.Store.Insert | netlify/functions/api.js:101 | The INSERT succeeds iff the owner exists and does not already hold the date. It then appends exactly that row, and otherwise changes nothing. |
| Database.Store.Rollback | netlify/functions/api.js:98 | `ROLLBACK` puts `days_off` back to its state at `BEGIN`, dropping the rows inserted since. `users` is unchanged and the constraints still hold. |
| Database.Store.AdmitDate | netlify/functions/api.js:93-101 | One turn of the loop. A full date, an unreadable date or a failing insert rolls back and gives the outcome AdmitBatch gives from that date. Otherwise exactly that date's row is appended, and AdmitBatch of the remaining dates is unchanged. |
| Database.Store.InsertBatch | netlify/functions/api.js:93-107 | The loop gives the outcome of AdmitBatch. It commits exactly the batch's rows, restores `days_off` on any failure, and keeps the constraints. |
| Database.Store.RequestDaysOff | netlify/functions/api.js:79-111 | The outcome is Admit. The batch rows are appended iff it is Created. `users` is unchanged. |
| Database.Store.Login | netlify/functions/auth-telegram.js:60-64 | `users` becomes the upsert of the login, and the claims are read back from the stored row |
| Database.Store.ApproveUser | netlify/functions/admin-approve-user.js:40-44 | Updates iff the user is pending; `users` then becomes ApproveUsers, and `days_off` is untouched |
| Database.Store.Authenticate | netlify/functions/api.js:19-46 | The response and the new tables are LoginReply of the old tables |
| Database.Store.SubmitDaysOff | netlify/functions/days-off-create-read.js:60-106 | The response and the new tables are AdmissionReply of the old tables |
| Database.Store.Approve | netlify/functions/api.js:124-140 | The response and the new tables are ApprovalReply of the old tables |
| Api.ApiRoute | netlify/functions/api.js:144-188 | Only POST `auth-telegram` skips the session, and no session means 401. GET `user-info` with a session is always reached, even for pending users, and `user-info` is reached only that way. The admin actions need `isAdmin`. A pending refusal means pending claims. The calendar is reached only for the action `get-calendar` and the requests only for `request-days-off`, both with non-pending claims. |
| Api.PendingUserForbidden | netlify/functions/api.js:176-178 | A pending non-admin is refused every action except login and GET `user-info` |
| Api.ActionsIgnoreMethod | netlify/functions/api.js:166-185 | For every non-pending session, admins included, the calendar and the requests are reached by any method. For an admin the admin actions are too. For a non-admin, non-pending session the admin actions are 404 whatever the method. |
| Api.UnknownActionNotFound | netlify/functions/api.js:186-187 | An unknown action is 404 for every non-pending session |
| Api.UserInfoResponse | netlify/functions/api.js:48-60 | Answers 200 with the caller's row iff the row exists, and 404 otherwise |
| Api.PendingIds | netlify/functions/api.js:113-122 | The pending list holds exactly the users whose shift is pending |
| Api.ApiReply | netlify/functions/api.js:144-193 | Only the login, the admin approval and the day-off request change the tables. `days_off` changes only by a 201 batch of the caller's rows. |
| Api.NoSessionUnauthorized | netlify/functions/api.js:152-160 | Without a valid session everything but POST `auth-telegram` is 401 and changes nothing |
| Api.Handler | netlify/functions/api.js:144-193 | The handler's response and the new tables are ApiReply of the old tables, and the constraints are kept |
| DaysOffCreateRead.DaysOffRoute | netlify/functions/days-off-create-read.js:108-123 | Gives 403 iff there is no session or the claims are pending; otherwise GET reads, POST requests, and anything else is 405 |
| DaysOffCreateRead.DaysOffReply | netlify/functions/days-off-create-read.js:108-130 | `users` never changes, and the tables change only by a POST answered 201 |
| DaysOffCreateRead.Handler | netlify/functions/days-off-create-read.js:108-130 | The handler's response and the new tables are DaysOffReply of the old tables |
| AuthTelegram.AuthReply | netlify/functions/auth-telegram.js:20-98 | Anything but POST is 405 with no change. The answer is 403 iff a POST's hash fails. The tables change only with a POST login answered 200. |
| AuthTelegram.Handler | netlify/functions/auth-telegram.js:20-98 | The handler's response and the new tables are AuthReply of the old tables |
| AdminApproveUser.AdminApproveReply | netlify/functions/admin-approve-user.js:21-59 | Anything but POST is 405, and a non-admin POST is 403, both with no change. The tables change only with an admin's POST answered 200. |
| AdminApproveUser.Handler | netlify/functions/admin-approve-user.js:21-59 | The handler's response and the new tables are AdminApproveReply of the old tables |

## Left out

- PgInput.BigintParam / Json.Stringify: JSON numbers are doubles in the source. An integer beyond ±2^53 in the body is rounded by `JSON.parse`, and `String(n)` prints it in shortest form (`1e+21` from 10^21 on). The model keeps every integer exact and prints it in plain digits.
- **JSON.** Numbers are integral; a fraction or exponent in the body is not modelled. `JSON.parse` never repeats a key, and `Json.Lookup` takes the last occurrence as it does. `Telegram.UnsignedLines` gives one line per field, and so matches `Object.keys` only on objects without repeated keys, which are the only ones `JSON.parse` produces. The text of the body and `JSON.parse` itself are represented by `body: Option<Json>`.
- **Postgres input formats.** Only three forms are modelled:
  - a sign followed by digits, for BIGINT and for the month and year compared with `EXTRACT`;
  - `YYYY-M-D` for DATE, with years 1 to 9999.
  
  Other formats Postgres accepts are not modelled: surrounding whitespace, a fraction such as `3.0` in a numeric comparison, `20250910`, named months, BC dates. A JSON number bound to a DATE parameter is taken as an error.
- PgInput.TextParam: strings are stored as the code units given. node-postgres sends TEXT parameters as UTF-8, so a U+0000 in `first_name` would make the upsert fail with 500, and a lone surrogate would be stored as U+FFFD. Neither is modelled.
- PgInput.TextParam: an array or object bound as TEXT becomes its `String(v)` form. node-postgres actually turns arrays into array literals and objects into JSON text.
- **Cookies.** Cookie parsing and the Set-Cookie serialisation (section 4.1 of RFC 6265) are not modelled; the session token arrives as `Option<JsString>`.
- **JWT.** Signing, verification and the 7-day expiry (RFC 7519) are the uninterpreted `verifyToken`.
- **The token's `userId`.** The source signs `userData.id` as the client sent it, a JSON number or a string (api.js:40, auth-telegram.js:68). Its SELECT reads back only `shift` and `is_admin`. The model's claims carry instead the BIGINT that Postgres reads from that value. Every later use of `userId` is a query parameter that Postgres reads the same way. The textual form of the id inside the token is not modelled.
- **Cryptography.** SHA-256 (FIPS 180-4) and HMAC (RFC 2104) are uninterpreted functions of `Http.Config`. A missing `TELEGRAM_BOT_TOKEN`, which makes `createHash().update` throw, is not modelled.
- **Query string.** `event.queryStringParameters` being `null` is not modelled; the query is always a map. In api.js it is destructured before the `try` (api.js:145), so the call throws out of the handler. In days-off-create-read.js only `handleGet` reads it, inside the handler's `try` (lines 21 and 117-119), so such a GET would answer 500.
- **Row order.** The query for `myDaysOff` has no ORDER BY, so Postgres leaves the row order unspecified. Listing the rows in table order is the model's choice. The `ORDER BY created_at` of the pending list is not modelled; `Api.PendingIds` is a set of ids.
- **Response bodies.** Message texts, headers and `Set-Cookie` are not modelled. So are the `id` and `firstName` echoed from the payload in the login response, and the `RETURNING` columns of the approval message.
- **Concurrency.** Transaction isolation and concurrent invocations are not modelled. Connection failures of the pool, which all end in 500, are not modelled either. Each handler call is one atomic step.
- **Files outside the model.** `user-info.js`, `admin-get-pending.js` and `days-off-delete.js` are not part of this model. Neither are the browser UI and the endpoints it calls that have no server code here. The schema scripts `setup-database.js`, `update-schema-1.js` and `update-schema-2.js` enter only as the store invariant and the two enumerations.
- **Day-off approval.** Approving or rejecting day-off requests, and any re-check of the shift cap at approval, do not exist in this code and are not modelled.
