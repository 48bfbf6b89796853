# A verified model of a student practice and submission web application

The application is a small Express server over a relational store, with
three browser pages. Students sign up and log in, answer a practice question
(7 × 6), keep a log of their attempts in local storage, sync that log to the
server, and upload assignment files. Administrators, behind HTTP Basic
authentication, read every student's progress grouped by user or as a CSV
export. A one-off migration moves the legacy JSON data file into the store.

The model is written in Dafny and follows the program's own structure:

- `Validation` holds the password policy, the username and email shapes, and
  the two orders in which the signup page and the server apply them.
- `SignupPage` is the signup page: the strength line and the submit handler,
  as a class over the page's fields.
- `Database` is the repository layer: a `Store` class whose three tables are
  sequences of rows, with SERIAL counters and a clock for the timestamp
  defaults, plus the partial-update statement builders.
- `Auth` covers signup, login, logout, `requireAuth` and `basicAuth`.
- `Uploads` covers the stored file name, the upload filter and the submit
  route. `ProgressApi` covers `/api/progress`.
- `AdminReports` covers the admin progress grouping, the item counts and the
  CSV export.
- `Migration` is the migration script.
- `Dashboard` is the student dashboard: the submission form, the submission
  list, the counters and the results list.
- `Practice` is the practice page. It also holds the merge of server
  progress into the local log done by `progress.js`.
- `Common`, `Text` and `Json` hold generic helpers: options, filters,
  JavaScript trimming and splitting, decimal rendering, and an abstract JSON
  value.

Library calls the code cannot see are parameters of the model: `xss`,
`Number`, `parseInt`, `Date.parse`, `new Date`, base64 decoding,
`JSON.stringify`, `JSON.parse`, and the text a value becomes in the page.
bcrypt is a stand-in function (`Auth.Hash`, `Auth.Compare`) that, like
bcrypt, reads only the first 72 characters of a password: a password
matches its own hash, and another password's exactly when the two agree on
that part.

`migrate.js` is meant to be run once (its header comment says so). The code
makes only the user step idempotent: submissions and progress entries are
inserted again on every run. The model follows the code, and
`Migration.MigrateSubmissions` states that nothing prevents the second
insert. Each record is wrapped in its own `try`, but the `catch` blocks log
the record's `username` or `id`, so a `null` record throws again from the
`catch` and rejects the whole run before the backup; `Migration.MigrateData`
states which inputs end that way.

## Model

| member | source | states |
|---|---|---|
| Validation.Test | signup.js:4-7 | a character-class test succeeds exactly when some position of the string is in the class |
| Validation.ValidatePassword | signup.js:2-25 | accepted exactly when all five rules hold; otherwise the first failing rule in policy order, with every earlier rule holding; under 8 characters always gives the length rule |
| Validation.ServerPasswordOk | server.js:141-153 | the server's length and character-class test accepts exactly the passwords the page's policy accepts |
| Validation.IsUsername | server.js:162-165 | the username pattern holds exactly for 3 to 20 characters, all letters, digits or `_` |
| Validation.IndexOf | server.js:108-109 | the first position of a character, or none exactly when it does not occur |
| Validation.IsEmail | server.js:156-159 | the scanning test accepts exactly the strings the email pattern matches, and exactly those that have no white space, one `@` with text before it, and a `.` strictly inside the part after it |
| Validation.ScanIsShape | signup.js:85 | the scan for the `@` and the `.` agrees with the character-level shape of an email, in both directions |
| Validation.ScanGivesShape | signup.js:85 | a string the scan accepts has the email shape |
| Validation.ShapeGivesScan | signup.js:85 | a string with the email shape is accepted by the scan |
| Validation.ShapeGivesPattern | signup.js:85 | the email shape splits into the three non-empty white-space-free atoms of the pattern |
| Validation.PatternGivesShape | signup.js:85 | the three atoms of the pattern give the email shape |
| Validation.AtomOfSlice | signup.js:85 | a slice that avoids the only `@` of a white-space-free string is an atom of the pattern |
| Validation.UsernameIsNeverEmail | server.js:162-171 | a valid username never has the shape of an email address |
| Validation.ClientSignupCheck | signup.js:68-100 | the page's checks in order: missing field, then the password rule that fails first, then the email, then the username; no problem exactly when all hold |
| Validation.ServerSignupCheck | server.js:136-165 | the server's checks in order: missing or short, then the character classes, then email, then username; it refuses exactly the forms the page refuses |
| SignupPage.StrengthLine | signup.js:41-56 | the strength line is blank exactly for an empty password, strong exactly when the policy holds, and otherwise shows the message of the first failing rule |
| SignupPage.ShortPasswordShowsLength | signup.js:9-11 | any non-empty password under 8 characters shows the length message |
| SignupPage.BodyOf | signup.js:114 | a body that does not parse reads as the empty object |
| SignupPage.RedirectFirst | signup.js:117-120 | a redirect in the body is followed whatever the status |
| SignupPage.StatusDecides | signup.js:122-133 | without a redirect, success goes to the dashboard and failure shows the body's error or the generic message |
| SignupPage.Page.constructor | signup.js:60-63 | the page starts with the error hidden, the button enabled, nothing sent, no navigation |
| SignupPage.Page.Submit | signup.js:60-141 | a form failing a check shows that check's message and sends nothing; otherwise exactly one request with the trimmed username and email is sent, and the page reacts to the answer |
| SignupPage.Page.Refuse | signup.js:63-100 | a refused form shows its message and changes nothing else |
| SignupPage.Page.Send | signup.js:102-111 | the request is appended to what was sent and the page reacts to the answer |
| SignupPage.Page.Respond | signup.js:117-140 | a redirect is followed with the button left disabled; an error re-enables the button; a success goes to the dashboard; while the error stays hidden its text is left as it was |
| SignupPage.SentFormsPassServer | server.js:136-165 | a form the page accepts passes the server's input checks after the server trims it again |
| Database.UserIndex | database.js:11-14 | the position of the row with an id, none exactly when no row has it |
| Database.SubmissionIndex | database.js:95-98 | the position of the submission with an id, none exactly when no row has it |
| Database.ToSql | database.js:42-68 | `undefined` and `null` both reach SQL as NULL; text as text |
| Database.ApplySetsExtend | database.js:62-64 | parameters beyond the last placeholder used do not change a SET list's effect |
| Database.ApplySetsPush | database.js:47-58 | pushing one `column = $k` with its value applies one more assignment, numbering kept |
| Database.UserStep | database.js:47-58 | testing one field of a user update keeps the built prefix in column order with the right bindings |
| Database.UserPrefixEffect | database.js:47-58 | a built prefix sets exactly the named columns below its rank, on any row |
| Database.UserFinish | database.js:60-64 | once all fields are tested, the statement is numbered `$1..$k` then the id, sets exactly the truthy fields, and patches any row as intended |
| Database.SubmissionStep | database.js:115-126 | testing one field of a submission update keeps the built prefix in column order |
| Database.SubmissionPrefixEffect | database.js:115-126 | a built prefix sets exactly the named submission columns below its rank |
| Database.SubmissionFinish | database.js:128-132 | the submission statement is well numbered, ends with the id, sets exactly the named columns and patches as intended |
| Database.PushField | database.js:47-50 | one `if (x) { fields.push; values.push }` block: pushed with the next placeholder when named, unchanged otherwise, counter kept one ahead |
| Database.PushUserField | database.js:47-58 | one field block of `updateUser` keeps the prefix invariant |
| Database.PushSubmissionField | database.js:115-126 | one field block of `updateSubmission` keeps the prefix invariant |
| Database.BuildUserUpdate | database.js:42-64 | nothing is built exactly when no field is truthy; otherwise the statement is well numbered, in column order, ends with the id, sets exactly the truthy columns and turns any row into the patched row |
| Database.BuildSubmissionUpdate | database.js:110-132 | nothing is built exactly when no field is named (notes counts unless `undefined`); otherwise the same guarantees as for users, with notes able to clear the column |
| Database.Store.constructor | database.js:1-4 | the layer starts over empty, well-formed tables with each SERIAL counter at 1 |
| Database.Store.GetUserById | database.js:11-14 | the row with that id, or none exactly when no row has it |
| Database.Store.GetUserByUsername | database.js:16-19 | a row with that username; a NULL parameter matches nothing |
| Database.Store.GetUserByEmail | database.js:21-24 | a row with that email; a NULL parameter matches nothing |
| Database.Store.GetUserByUsernameOrEmail | database.js:26-32 | a row whose username or email is the identifier, none exactly when no row has it as either |
| Database.Store.GetAllUsers | database.js:6-9 | every user without the hash, one per row, newest first |
| Database.Store.UsersNewestFirst | database.js:6-9 | the listing of all users is strictly newest first |
| Database.Store.CreateUser | database.js:34-40 | the SERIAL value is consumed either way; NOT NULL then UNIQUE failures change no row; success appends the row stamped now, and both lookups then find it |
| Database.Store.AppendUser | database.js:34-40 | the successful insert keeps the store well formed, appends the row, and makes it what both lookups find |
| Database.Store.LastUserFound | database.js:16-24 | with unique usernames and emails, the newest row is what its username and email find |
| Database.Store.UpdateUser | database.js:42-68 | no query and no change when nothing is truthy or there is no such row; for a named update of an existing row, a UNIQUE failure exactly when another row holds the new name or email, and otherwise the patched row, which replaces that row; a failure or an empty answer changes nothing |
| Database.Store.DeleteUser | database.js:70-73 | exactly the rows with that id go and the answer is true; submissions and progress stay, now naming a user that is gone |
| Database.Store.GetSubmissionById | database.js:95-98 | the submission with that id, none exactly when absent |
| Database.Store.GetSubmissionsByUserId | database.js:87-93 | exactly that user's submissions |
| Database.Store.SubmissionsNewestFirst | database.js:87-93 | a user's submissions are strictly newest first |
| Database.Store.CreateSubmission | database.js:100-108 | `status` defaults to pending and `notes` to NULL; failure on a NULL column, then on a missing owner; success appends the row stamped now |
| Database.Store.AppendSubmission | database.js:100-108 | the successful insert keeps the store well formed and appends the row |
| Database.Store.UpdateSubmission | database.js:110-136 | no change when nothing is named or the row is absent; a named update of a present row returns the patched row, which replaces that row |
| Database.Store.DeleteSubmission | database.js:138-141 | exactly the rows with that id are removed |
| Database.Store.GetProgressByUserId | database.js:145-151 | exactly that user's progress rows |
| Database.Store.ProgressNewestFirst | database.js:145-151 | a user's progress rows are strictly newest first |
| Database.Store.GetAllProgress | database.js:161-169 | exactly the rows whose owner exists (the inner join) |
| Database.Store.AllProgressNewestFirst | database.js:161-169 | the joined rows are strictly newest first |
| Database.Store.CreateProgress | database.js:153-159 | the payload is stored as given; an owner that does not exist is a foreign-key failure that changes no row |
| Database.Store.AppendProgress | database.js:153-159 | the successful insert keeps the store well formed and appends the row |
| Database.Store.GetUserStats | database.js:173-183 | whether the user exists and the counts of that user's submissions and progress rows |
| Auth.CompareHash | server.js:177-178 | a password matches its own hash, and another password's exactly when their first 72 characters agree; among passwords of at most 72 characters, only its own |
| Auth.Truncated | server.js:177-178 | the part bcrypt reads: the whole password up to 72 characters, otherwise its first 72 |
| Auth.LongPasswordsCollide | server.js:177-178 | two passwords sharing their first 72 characters match each other's hash |
| Auth.Session.constructor | server.js:58-68 | a fresh session has no user |
| Auth.RequireAuth | server.js:95-99 | the request goes on exactly when the session holds a truthy user id |
| Auth.Logout | server.js:257-264 | the session is cleared, later requests are gated, the browser goes to the login page |
| Auth.LookupsFindRegistered | server.js:171-175 | the two signup lookups find something exactly when the account is registered |
| Auth.NewAccountFound | server.js:181-184 | a new account with a fresh username is what the login lookup finds |
| Auth.Signup | server.js:134-189 | a bad request exactly for a form failing a check, with that check's message; a form matching an existing account gets the login redirect and changes nothing; a valid form for an unregistered account always creates it: one user stored with escaped names and hashed password, the session logged in, and the login lookup finds the account |
| Auth.Register | server.js:167-184 | after the checks: redirect exactly when already registered, with nothing changed; otherwise the row is appended and the session set |
| Auth.LoginDecision | server.js:192-214 | missing credentials exactly for an empty field; logged in exactly when the found account's hash matches, as that account |
| Auth.LoginFailuresIndistinguishable | server.js:199-206 | an unknown account and a wrong password get the same 401 reply |
| Auth.LoginWithSignupPassword | server.js:177-209 | the password an account was created with logs into it |
| Auth.Login | server.js:192-214 | the decision on the account found by username or email; only a successful login touches the session |
| Auth.EnvOr | server.js:110-111 | an environment value wins unless it is missing or empty |
| Auth.CredentialsMatchAsWritten | server.js:108-112 | the check as written: the decoded credentials split at every `:`, the first piece compared with the configured user and the second, when there is one, with the configured password |
| Auth.CredentialsMatch | server.js:108-112 | the corrected check: the text before the first `:` compared with the configured user and everything after it with the configured password; no `:` at all is refused |
| Auth.ColonPasswordRefused | server.js:108-112 | as written, a configured password containing `:` is always refused, even when sent exactly |
| Auth.ColonPasswordExample | server.js:108-112 | the pair `admin` and `change:me` is refused as written |
| Auth.CredentialsMatchExactly | server.js:108-112 | the corrected test admits exactly the configured pair, for any password and any user name without `:` |
| Auth.AsWrittenAcceptsPlainPair | server.js:108-112 | where neither half holds `:`, the test as written and the corrected one both admit the exact pair |
| Auth.TrailingFieldAdmittedAsWritten | server.js:108-112 | as written, the exact pair followed by `:` and anything is admitted; the corrected test refuses it |
| Auth.DefaultsTrailingFieldExample | server.js:108-112 | with the defaults, `admin:changeme:x` passes the test as written and not the corrected one |
| Auth.BasicAuth | server.js:102-115 | no `Basic ` header gives the authentication challenge; otherwise admitted exactly when the decoded credentials match ADMIN_USER and ADMIN_PASS, defaulting to admin and changeme |
| Auth.DefaultAdminAdmitted | server.js:110-112 | with the defaults, `admin:changeme` is admitted |
| Uploads.Sanitize | server.js:35 | same length; safe characters kept, every other character replaced by `_` |
| Uploads.SanitizeIdempotent | server.js:35 | a sanitised name holds only safe characters and `_`, so sanitising again changes nothing |
| Uploads.OwnerTag | server.js:33 | the user id in decimal, or `anon` without a logged-in user; never holds `_` |
| Uploads.StoredFilename | server.js:32-37 | the stored name: the owner tag, `_`, the decimal timestamp, `_`, then the original name with every character outside letters, digits, `.` and `-` replaced by `_` |
| Uploads.StoredFilenameFields | server.js:32-37 | the first two `_` fields of a stored name are the owner tag and the timestamp; the rest is the sanitised name |
| Uploads.StoredFilenameInjective | server.js:32-37 | a stored name determines its owner tag, timestamp and sanitised name |
| Uploads.StoredFilenameNamesOwner | server.js:32-37 | two different logged-in users never share a stored name |
| Uploads.EndsWithOneOfIndex | server.js:44 | ending in one of the extensions is ending in some listed `.ext` |
| Uploads.AllowedExtensionsLower | server.js:44 | every allowed extension is lower-case letters |
| Uploads.LastDot | server.js:44 | the last `.` of a name, none exactly when it has no dot |
| Uploads.LastDotLower | server.js:44 | lower-casing moves no dot |
| Uploads.ToLowerSuffix | server.js:44 | lower-casing commutes with taking a suffix |
| Uploads.LastDotAt | server.js:44 | a dot with no later dot is the last dot |
| Uploads.EndsWithDotExtensionOnly | server.js:44 | ending in `.ext`, for a dot-free `ext`, puts the last dot just before it |
| Uploads.DotExtensionEndsWith | server.js:44 | a last dot followed by `ext` means the name ends in `.ext` |
| Uploads.EndsWithDotExtension | server.js:44 | for a dot-free extension, ending in `.ext` is exactly having `ext` after the last dot |
| Uploads.AllowedUploadByExtension | server.js:43-50 | the case-insensitive filter passes exactly when the lower-cased text after the last dot is an allowed extension |
| Uploads.SanitizedCharMatches | server.js:35 | sanitising, then lower-casing, hits a safe character exactly when lower-casing alone does |
| Uploads.EndsWithByIndex | server.js:44 | ending with a suffix, stated position by position |
| Uploads.SanitizeKeepsSuffix | server.js:35-44 | sanitising is invisible to a case-insensitive suffix of safe characters |
| Uploads.SanitizeKeepsAllowed | server.js:35-44 | the stored name passes the filter exactly when the original name does |
| Uploads.UploadCheck | server.js:42-50 | refused for its type first, then for a size over 10 MB; accepted exactly when both pass |
| Uploads.Submit | server.js:267-302 | without a session, a redirect to login; no file, a refused file, an empty escaped title (the 400 `Title is required.`) or an owner that no longer exists (the 500 of the catch) stores nothing, each answered with its own outcome; otherwise one submission row with the stored name, the escaped fields and the owner is appended, and the file is kept exactly then |
| Json.Spread | dashboard.js:209 | the own enumerable properties a spread copies: an object's fields, an array's elements and a string's characters under their decimal indices, and nothing for any other value |
| ProgressApi.Stamped | server.js:225 | the payload's own properties over an `at` of the arrival time, so a payload `at` wins |
| ProgressApi.Shown | server.js:244-247 | a row as answered: its data spread (an object's own properties, an array's or a string's index properties) with `at` replaced by the stored time |
| ProgressApi.GetProgress | server.js:235-254 | nothing without a logged-in user; otherwise one shown entry per row of that user, newest first |
| ProgressApi.NewestAfterAppend | database.js:145-151 | after appending a user's row, that user's newest row is that row |
| ProgressApi.PostProgress | server.js:217-233 | nothing is stored without a session or for a user that no longer exists; otherwise the stamped payload is appended, and the next read shows it first with every property but `at` as sent |
| AdminReports.GroupStep | server.js:358-365 | one turn of the grouping loop keeps the groups exactly the entries of each user, in order |
| AdminReports.GroupByUser | server.js:358-365 | a key exactly for each user that owns an entry, mapped to that user's entries in their original order |
| AdminReports.GroupsPartition | server.js:358-365 | each entry lands in its own user's group, and a group holds only that user's entries |
| AdminReports.ReadData | server.js:377-378 | the value the pages read: a stored string parsed, any other value as stored; none exactly for `null`, a string that is not JSON text, or one holding `null` |
| AdminReports.ItemsCount | server.js:377-378 | nothing (the page answers 500) exactly where reading the data throws; otherwise the length of `items` when it is an array, 0 otherwise |
| AdminReports.ItemsCountsAgree | server.js:377-405 | the HTML page and the CSV export fail on the same entries and count the same items |
| AdminReports.DoubleQuotesPaired | server.js:408-409 | a doubled field holds quotes only in adjacent pairs, and reading the pairs back gives the original |
| AdminReports.QuotedReadsBack | server.js:408-409 | a quoted field opens and closes with `"`, holds quotes inside only in pairs, and reads back as the original text |
| AdminReports.CsvRow | server.js:400-409 | none exactly when the entry's data cannot be read; otherwise the six header fields in order: the user id, the quoted username and email of the first listed user with that id (both empty when none is listed), the stored time, the page's item count, and the quoted JSON of `data.items || []` |
| AdminReports.CsvRowNamesOwner | server.js:392-409 | for an entry whose owner is listed once, the username and email fields are quoted and read back exactly as that user's username and email |
| AdminReports.BuildCsvRows | server.js:399-410 | no export (the 500 answer) exactly when some entry's data cannot be read; otherwise the header, then one row per entry in order |
| AdminReports.CsvLines | server.js:411 | without line breaks inside rows, the export has one line per row, each the row's fields joined by commas |
| Migration.CoveredAppend | migrate.js:41-45 | a legacy user already covered stays covered when a row is added |
| Migration.UsersVisited | migrate.js:38-53 | the user records before the first `null` one, all of them when there is none |
| Migration.MigrateUser | migrate.js:37-53 | a `null` record ends the run and changes nothing; otherwise the record is inserted exactly when no row has its username or email and every column has a value, the row carries its columns, and afterwards it is covered; the table, the users SERIAL value and the clock are exactly one `UserTurn` on the old ones |
| Migration.UsersStep | migrate.js:37-53 | one turn of the user loop keeps the loop's account of the table |
| Migration.UserTurn | migrate.js:39-52 | one turn against the table as it stands: a record whose username or email is stored is skipped, one lacking a column takes a SERIAL value and adds nothing, any other is appended with the next id and stamp; a row is added exactly when the record was not covered, it carries the record's columns, and the record is covered afterwards |
| Migration.UsersAfter | migrate.js:38-53 | the records taken in file order, each against the table the earlier ones left; the earlier rows stay, at most one row is added per record, and the clock moves by the rows added |
| Migration.UsersAfterSnoc | migrate.js:38-53 | one more record takes one more turn on what the earlier ones left |
| Migration.UsersAfterConcat | migrate.js:38-53 | running over one list and then another is running over the two joined |
| Migration.UsersAfterGrows | migrate.js:38-53 | what the first records leave is a prefix of what any longer prefix of the file leaves |
| Migration.LaterDuplicateSkipped | migrate.js:41-45 | once a record is inserted, every later record with its username or its email is skipped, whatever its other columns say: the first of two colliding records wins |
| Migration.DuplicateUsernameExample | migrate.js:41-47 | two records with the same username and different emails and hashes leave only the first one's row |
| Migration.UsersAfterAccount | migrate.js:38-53 | every row the loop adds comes from a record it reached, every record reached is covered, and nothing is added when all were covered already |
| Migration.MigrateUsers | migrate.js:37-53 | the loop ends the run exactly at a `null` record; the table, the users SERIAL value and the clock it leaves are exactly `UsersAfter` of the records it reached, so the new rows follow the file's order and the first of two colliding records is the one inserted; every legacy user it reaches is covered afterwards, each new row comes from a reached record, and a second run over the same records creates nobody |
| Migration.MigrateSubmission | migrate.js:56-80 | a `null` record ends the run and changes nothing; skipped when no owner is found; otherwise the stored row carries the record's owner and columns, with type defaulting to assignment, a falsy note stored as NULL and status defaulting to pending |
| Migration.SubmissionsVisited | migrate.js:57-80 | the submission records before the first `null` one, all of them when there is none |
| Migration.MigratableIsFilter | migrate.js:57-80 | the records the loop inserts are the migratable records of the file, in the file's order |
| Migration.MigratableSnoc | migrate.js:57-80 | visiting one more record adds it to the inserted records exactly when it is migratable |
| Migration.SubmissionsStep | migrate.js:57-80 | one turn of the submission loop keeps the appended rows one for one with the migratable records visited |
| Migration.MigrateSubmissions | migrate.js:56-80 | the loop ends the run exactly at a `null` record; the appended rows are, one for one and in order, the migratable records it reaches, so a second run inserts them again |
| Migration.Iterated | migrate.js:94-97 | an array gives its elements, a string its characters, anything else throws |
| Migration.OwnedEntries | migrate.js:85-96 | a key adds one pair per entry, in order, each owned by the id the key parses to; it adds something only when that id is a stored user's |
| Migration.PendingOwned | migrate.js:83-97 | every progress row the migration adds is owned by a stored user |
| Migration.PendingSnoc | migrate.js:83-102 | one more key adds its own entries after those of the keys before it |
| Migration.Numbered | migrate.js:94-97 | rows inserted one after the other carry consecutive ids and stamps, with each entry's owner and payload, in order |
| Migration.NumberedConcat | migrate.js:83-102 | inserting two batches numbers the second on from where the first left the counters |
| Migration.MigrateProgressFor | migrate.js:83-102 | a key that is not a stored user's id, or whose value cannot be iterated, adds nothing; otherwise the table grows by exactly one row per entry, in order, with consecutive ids and stamps, and the counter by the same number |
| Migration.ProgressStep | migrate.js:83-102 | one turn of the progress loop keeps the loop's account of the appended rows |
| Migration.MigrateProgress | migrate.js:83-102 | the progress table grows by exactly the numbered rows of every resolvable key, key after key, and the counter equals their number; users and submissions are untouched |
| Migration.MigrateRest | migrate.js:55-102 | users are untouched; the submission step stops exactly at a `null` record, with the appended rows the migratable records it reached, in order; when it stopped there no progress row is added, and otherwise the progress rows are every resolvable key's entries, stamped on from where the user and submission steps left the clock |
| Migration.MigrateTables | migrate.js:30-111 | with a users list that can be iterated: the run is rejected exactly when a `null` record is met or the submissions list cannot be iterated; a rejected run adds no progress row and keeps what the user step, and the submission step if it ran, inserted, the users being exactly `UsersAfter` of the records reached; a completed run's report and tables are as for `Migration.MigrateData` |
| Migration.MigrateData | migrate.js:9-125 | a missing or unreadable file is skipped with no change and no backup; a `null` document, a users or submissions list that cannot be iterated, or a `null` record rejects the run with no backup; a rejected run adds no progress row, changes nothing when the users list cannot be iterated, and otherwise keeps the earlier rows followed by what the user step inserted up to its end or its `null` record (exactly `UsersAfter` of the records reached: in file order, the first of two colliding records inserted, each new row from a reached record, every reached record covered), the submissions untouched unless the user step finished and the list can be iterated, and then the earlier submissions followed by the migratable records before the first `null` one, in order; a completed run's report counts what the steps did, earlier rows stay as they were, the appended users are exactly `UsersAfter` of the file's users, so they come from the file in its order, the first of two colliding records wins, and they cover every legacy user (none when all were covered before), the appended submissions are the migratable records in order, the appended progress rows are every resolvable key's entries, numbered on from the earlier steps, and the backup is written |
| Dashboard.EntryItems | dashboard.js:161-162 | the entry's items when they are an array, none otherwise |
| Dashboard.TotalAttempts | dashboard.js:161 | the sum over the entries of the length of each entry's `items` array, 0 for an entry without one |
| Dashboard.CorrectAnswers | dashboard.js:162 | the correct answers never exceed the attempts |
| Dashboard.SubmissionsCount | dashboard.js:178-186 | a failed fetch or no submissions counts 0; an array counts its length |
| Dashboard.ProgressTotals | dashboard.js:154-175 | the counters are shown exactly for an ok answer whose progress is an array with no null entry or item; correct never exceeds attempts |
| Dashboard.Tagged | dashboard.js:205-211 | a task is an object with the entry's time as `timestamp` |
| Dashboard.TaggedFields | dashboard.js:205-211 | every other property of a task is its item's spread property; one whose name does not start with a digit is the item's own |
| Dashboard.TagAll | dashboard.js:205-211 | one tagged task per item, in order |
| Dashboard.Flattened | dashboard.js:203-214 | the tasks of every entry in entry order, each entry's items tagged with its time in item order, an entry without an `items` array adding none |
| Dashboard.FlattenedLength | dashboard.js:203-214 | the results list holds one task per attempt the counters count |
| Dashboard.FlattenedAt | dashboard.js:203-214 | item j of entry i sits right after the items of the entries before it |
| Dashboard.CountTagAll | dashboard.js:205-211 | tagging keeps which items are correct |
| Dashboard.FlattenedCorrect | dashboard.js:162-214 | the correct tasks listed are the correct answers counted |
| Dashboard.NewestFirstTail | dashboard.js:222 | the tail of a newest-first list is newest first, and its head is the newest |
| Dashboard.Insert | dashboard.js:222 | inserting adds exactly one task |
| Dashboard.InsertMultiset | dashboard.js:222 | inserting adds exactly that task |
| Dashboard.InsertBound | dashboard.js:222 | inserting keeps a bound every task respects |
| Dashboard.InsertOrdered | dashboard.js:222 | inserting keeps the list newest first |
| Dashboard.SortNewestFirst | dashboard.js:222 | the sorted list is a permutation of the tasks, newest first |
| Dashboard.InsertStableFront | dashboard.js:222 | a task placed in front precedes no task of its own time |
| Dashboard.InsertStableBehind | dashboard.js:222 | a task placed behind the head keeps the head first among its time |
| Dashboard.InsertStable | dashboard.js:222 | inserting puts a task after every task of the same time |
| Dashboard.SortStable | dashboard.js:222 | tasks of the same time keep their flattened order |
| Dashboard.FlattenTasks | dashboard.js:203-214 | the two loops build the flattened tasks, and fail exactly on a null entry |
| Dashboard.ResultsFor | dashboard.js:189-241 | the error view for a failed fetch, a `null` body, a `null` entry or a `progress` that is not an array; the unavailable view for a non-ok answer; the empty view when no entry has an item; otherwise the first twenty flattened tasks sorted newest first |
| Dashboard.LoadResults | dashboard.js:189-241 | the view is the error, unavailable, empty or results view the answer calls for |
| Dashboard.NewestShown | dashboard.js:222-224 | at most twenty tasks, newest first, all from the list, none left out newer than one shown |
| Dashboard.ResultsShape | dashboard.js:216-224 | the empty message appears exactly when there is no task; otherwise the first twenty of the sorted tasks are shown: at most twenty, newest first, each a task of some entry |
| Dashboard.Capitalize | dashboard.js:134 | capitalising keeps the length |
| Dashboard.CapitalizeCase | dashboard.js:134 | only the first character's case changes |
| Dashboard.DefaultBadge | dashboard.js:134 | the default type shows as `Assignment` |
| Dashboard.TypeLabel | dashboard.js:134 | a badge exactly for a text type; a missing type shows `Assignment`; the badge is the type with its first character upper-cased |
| Dashboard.SubmissionsFor | dashboard.js:110-151 | the empty message exactly for an ok answer with no or an empty list; otherwise one badge per submission in order |
| Dashboard.FormLimitIsServerLimit | dashboard.js:60-66 | the form's size check and the server's limit agree |
| Dashboard.SubmissionPanel.constructor | dashboard.js:45-50 | no file chosen, nothing sent, both messages hidden |
| Dashboard.SubmissionPanel.Choose | dashboard.js:45-55 | choosing a file records it and changes nothing else |
| Dashboard.SubmissionPanel.Submit | dashboard.js:45-106 | no file or one over 10 MB shows its error, sends nothing and leaves the file, the success message and the button as they were; otherwise the file is sent once; a failed fetch or an error reply with a `null` body shows the network error, another error reply its own message or the generic one, a success the success message with the form cleared; the button is enabled again |
| Practice.Attempt | practice.js:27-29 | the record of one answer: the question, the trimmed answer, whether it reads as 42, the time |
| Practice.CorrectCount | practice.js:48-57 | the correct entries never exceed the log |
| Practice.Summary | practice.js:48-57 | `No activity yet.` exactly for an empty log; no line exactly when a null entry makes the count throw; otherwise `Attempts: n, Correct: c.` with the log's length and its correct count |
| Practice.SummaryDetermines | practice.js:48-57 | two logs with the same summary line have the same attempt and correct counts |
| Practice.CountsLineInjective | practice.js:56 | the summary text determines both numbers it shows |
| Practice.FromServer | progress.js:9-11 | a server entry as the log keeps it, with the defaults for missing fields |
| Practice.FromServerCorrect | progress.js:10 | a merged entry is correct exactly when the server entry was |
| Practice.MergedLog | progress.js:5-11 | a mergeable answer appends one mapped entry per server entry; otherwise the log is unchanged |
| Practice.MergedCorrect | progress.js:9-11 | the merged log's correct count adds the server's correct entries to the local ones |
| Practice.MappedCorrect | progress.js:10 | mapping the server entries keeps their correct count |
| Practice.SyncBody | practice.js:66-70 | the posted body carries the whole log as `items` |
| Practice.SyncedLogCounts | practice.js:66-70 | a synced log read back by the dashboard counts exactly as the summary counts it |
| Practice.PracticePage.constructor | practice.js:82 | the page loads with the stored log and shows its summary |
| Practice.PracticePage.ShowHint | practice.js:15-17 | the hint is shown and nothing else changes |
| Practice.PracticePage.SubmitAnswer | practice.js:19-46 | an empty answer is refused and the log left alone; any other answer is judged and appended as one record, and the summary redrawn |
| Practice.PracticePage.Sync | practice.js:59-80 | an empty log sends nothing; otherwise the whole log is posted once and the answer decides the message |
| Practice.PracticePage.MergeServerProgress | progress.js:5-11 | the merged log is written back and nothing else on the page changes |
| Practice.AttemptCounts | practice.js:38-57 | each accepted answer adds one attempt, and one correct answer exactly when it reads as 42 |

## Left out

- The SQL text, the connection pool and the query driver are not part of this model. The store is an abstract relational store whose rows are sequences. `connection.js` is not part of this model.
- NOT NULL and UNIQUE constraints, and the foreign keys the inserts check, are modelled as the schema the queries assume; the schema itself is not part of the source. The order among rows with equal stamps is not modelled; stamps are strictly increasing.
- Database.Store.DeleteUser: keeps the user's submission and progress rows, which then name a user who no longer exists. Under the foreign keys that `CreateSubmission` and `CreateProgress` enforce, Postgres would instead refuse the delete or cascade it. Which of the two depends on the ON DELETE clause of a schema the source does not ship, so the model keeps the rows and makes no claim about referential integrity after a delete.
- `getAllSubmissions`, the admin submissions HTML page, the download route and the field renaming of `GET /api/submissions` are left out. They read rows and render them.
- The HTML rendering of the admin progress page, `escapeHtml`, `formatDate` and the order `Object.entries` lists keys in are left out. The grouping itself is modelled.
- JavaScript coercions: `String()` of a body field that is neither absent nor a string, Postgres coercion of string ids, and NaN dates are not modelled.
- Auth.Hash: salts and cost factors are not modelled, and characters stand for the UTF-8 bytes bcrypt counts, so bcrypt's 72-byte limit is a 72-character limit; the two agree for ASCII passwords.
- Several library calls are parameters of the model: `xss`, base64 decoding, `JSON.stringify`, `JSON.parse`, `parseInt`, `Number`, `Date.parse`, `new Date` and `Date.now`.
- Rate limiters, helmet, cookie and session storage, and static file serving are left out. They are configuration of libraries.
- The `catch` branches that answer 500 are not modelled. In a sequential model the awaited calls they guard do not throw, except where the model states the failure, as for `createUser` and for progress data the admin pages cannot read (`AdminReports.ReadData`).
- Strings are sequences of Unicode scalar values. JavaScript counts and indexes strings in UTF-16 code units, so the two differ only for characters outside the Basic Multilingual Plane; the lines below name the members where that shows.
- Validation.ValidatePassword: counts the length in characters, where `password.length` counts UTF-16 code units; `Aa1!😀😀` is long enough in the code and too short in the model.
- Validation.ServerSignupCheck: the same length count as `Validation.ValidatePassword`.
- Validation.ServerPasswordOk: the same length count as `Validation.ValidatePassword`.
- Uploads.Sanitize: writes one `_` per character outside the allowed set, where the regex without the `u` flag writes one per UTF-16 code unit; `😀.pdf` becomes `__.pdf` in the code and `_.pdf` in the model.
- Json.Spread: a string's index properties are its characters, where JavaScript gives one per UTF-16 code unit; `ProgressApi.Shown` and `Dashboard.Tagged` inherit this.
- Browser state: a local-storage value that fails to parse is not modelled (the log is a list of JSON values). A property holding `undefined` is modelled as absent, and the own `length` property of an object is ignored.
- `toUpperCase` and `toLowerCase` are modelled on ASCII letters only.
- The `setTimeout` tab switch after an upload, the reload of the lists after an upload, and `focus()` calls are left out. They are presentation.
- `login.js` and `hash-password.js` are not part of this model.
- The reply bodies of `POST /api/progress` and the messages of the upload filter's and size limit's errors are not modelled; the routes' outcomes are (`ProgressApi.PostOutcome`, `Uploads.UploadProblem`). The upload errors reach Express's default error handler, whose reply depends on the environment.
- Json.Num holds integers: a JSON number with a fraction or an exponent is not modelled. No modelled computation reads one; the counts, ids and stamps the model reads are integers.
- Auth.BasicAuth: uses the corrected first-colon split of the decoded credentials, not the split at every colon the code performs; the code as written is `Auth.CredentialsMatchAsWritten`.

## Findings

| source | as written | input that shows it | evidently intended | confidence | as-written member | corrected member |
|---|---|---|---|---|---|---|
| server.js:108-112 | the decoded credentials are split at every `:` and only the second piece is compared with ADMIN_PASS, so a configured password holding `:` is refused even when sent exactly | ADMIN_PASS `change:me`, decoded credentials `admin:change:me` | the user-id ends at the first `:` and the rest is the password, as section 2 of RFC 7617 reads the user-pass | not executed | Auth.ColonPasswordRefused | Auth.CredentialsMatchExactly |
| server.js:108-112 | the same split ignores every piece after the second, so the configured pair followed by `:` and anything is admitted | the defaults, decoded credentials `admin:changeme:x` | only the exact pair is admitted: the password `changeme:x` is not `changeme` | not executed | Auth.TrailingFieldAdmittedAsWritten | Auth.CredentialsMatchExactly |
