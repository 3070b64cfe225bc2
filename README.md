# Excos exam-complaint portal: a verified model of its request handlers

Excos is a university portal. Students file complaints about exams, and
administrators read them, watch the analytics dashboard and manage their own
profiles. Every operation is one or a few SQL statements against a MySQL
store. This project models those handlers over an in-memory store and proves
what each one promises.

The store is a `Store.Database` object with four tables: `users`,
`complaints`, `notifications` and `password_reset_tokens`. Each table is a
sequence of records that the handlers reassign in place. Each SQL statement
becomes a table operation from module `Rows`:

- `Select` and `First` for a `WHERE`;
- `Update` for an `UPDATE ... WHERE`;
- `Delete` for a `DELETE ... WHERE`;
- `NewestPage` for `ORDER BY createdAt DESC LIMIT n OFFSET m`.

Other conventions:

- bcrypt is a concrete stand-in: `Base.Hash(p)` is `"$2b$" + p`, which is
  deterministic and injective, and `Base.Matches` compares against it.
- The clock is an integer number of milliseconds, passed in as `now`.
- uuids, `generateId` and `generateReferenceNumber` are parameters: the
  fresh values the generators returned.
- A statement that throws is a parameter (`fails`, `fault`, `failure`,
  `insertFaults`). Where a handler catches the error, the model gives its
  answer; where a helper rethrows it, the model returns `Rethrown(code)`.
  The few throws the model does not follow are listed under "Left out".

The modules follow the source files:

| module | source file | form |
|---|---|---|
| `Notifications` | lib/notifications.ts | methods that change `db.notifications`, specified by table functions |
| `NotificationsApi` | pages/api/notifications/index.ts | method dispatch, auth guard, error-to-status mapping |
| `ComplaintsApi` | pages/api/auth/complaints/complaints.ts | paging clamp, role-based listing, schema, multipart POST |
| `ComplaintActions` | app/actions/complaint-actions.ts | the submit action: validation, then find-or-create account, then date check, then insert |
| `Analytics` | pages/api/admin/analytics.ts | the `whereClause`/`params` builder as a loop-free imperative method; SQL as token lists (module `Sql`) |
| `PasswordActions` | app/actions/password-actions.ts | reset-token request and redemption |
| `ForgotPasswordApi` | pages/api/auth/forgot-password.ts | the reset-token request route |
| `ResetPasswordApi` | pages/api/auth/reset-password.ts | the reset-token redemption route |
| `PasswordChange` | pages/api/auth/update-password.ts, pages/api/auth/change-password.ts, pages/api/student/change-password.ts | one guard ladder with a per-route policy (minimum length, row scope, messages) |
| `AuthActions` | app/actions/auth.ts | registration, sign-in, session record, current user |
| `AdminProfile` | pages/api/admin/profile.ts | admin profile GET/PUT |
| `DbPool` | lib/db.ts | class `Connection` with the module-level `pool`/`isInitialized` state; retry loop |
| `DbNewPool` | lib/db-new.ts | the same state with the other retry policy |
| `UploadApi` | pages/api/upload.ts | guards, extension whitelist, object name and URL |

The other modules are shared helpers:

- `Base`: options, replies, `||` defaults, bcrypt.
- `Text`: ASCII lower-casing, `path.extname`, decimal digits, split.
- `Rows`: table operations and newest-first ordering.
- `Sql`: placeholder counting over token lists.
- `Store`: the record types and the `Database` class.

Where the design description of the portal and the code disagree, the model
follows the code:

- **Complaint listing.** The description scopes an admin's listing by
  position: lecturer by course, HOD by department, dean by faculty. The
  listing handler has no such filter. Every admin sees every complaint, and
  a student sees only their own.
- **Retries.** The description retries only transient connection errors,
  and only on reads. lib/db.ts retries every error up to three attempts, on
  reads and writes alike. lib/db-new.ts retries only `ER_CON_COUNT_ERROR` and
  `ECONNRESET`; it does not retry a timeout.
- **Service unavailable.** Only the notifications route answers 503, and
  only for `ER_CON_COUNT_ERROR`. The other routes answer 500 or return a
  failure result.

## Model

| member | source | states |
|---|---|---|
| Notifications.CreateNotification | lib/notifications.ts:12-26 | without a fault, the new row is unread, has the given id and is addressed to `data.userId`, is appended and returned; a failing insert is rethrown with the table unchanged; no other table changes |
| Notifications.CreateAddsOneUnread | lib/notifications.ts:14-21 | a created notification raises its recipient's unread count by exactly one and leaves every other user's count unchanged |
| Notifications.Admins | lib/notifications.ts:35-37 | the selected users are exactly the users whose role is 'admin' |
| Notifications.CreateSystemNotification | lib/notifications.ts:28-58 | a failing admin lookup is rethrown and adds nothing; otherwise every insert that succeeds lands, and the call returns one notification per admin, in order (addressed to that admin, same title and message, type defaulting to 'info', unread, no related id) exactly when no insert failed, or rethrows the first failure |
| Notifications.FirstFaultExact | lib/notifications.ts:42-51 | the rejection of the inserts is absent exactly when no insert failed, and otherwise is one of the failures |
| Notifications.SystemRowsLanded | lib/notifications.ts:42-51 | the notification for an admin is among the landed rows exactly when that admin's insert did not fail |
| Notifications.SystemRowsAllLand | lib/notifications.ts:42-51 | when no insert fails, exactly one row per admin lands, in admin order |
| Notifications.SystemNotificationThrowsAsWritten | lib/notifications.ts:42-51 | as written, with at least one admin, no row lands and the call rethrows the driver's TypeError for the undefined `relatedId` |
| Notifications.SafeLimit | lib/notifications.ts:63 | the clamped limit lies in [1, 100]: the limit itself inside the range, 1 below it, 100 above it |
| Notifications.Newest | lib/notifications.ts:65-71 | min(n, inbox size) rows, all the user's own, taken from the table, newest first |
| Notifications.UserNotifications | lib/notifications.ts:60-78 | at most SafeLimit(limit) ≤ 100 rows, only the caller's, newest first; not empty when the inbox is not |
| Notifications.InboxHoldsNewest | lib/notifications.ts:65-71 | every row of the user's inbox that is left out is no newer than every row returned |
| Notifications.UnreadCount | lib/notifications.ts:114-123 | the count is 0 exactly when every row of the user is read, and never exceeds the table size |
| Notifications.MarkedRead | lib/notifications.ts:85-93 | same length; a row matching both id and userId becomes read with readAt and updatedAt set; every other row is unchanged |
| Notifications.MarkNotificationAsRead | lib/notifications.ts:85-98 | without a fault, reports success whether or not anything matched and the table becomes MarkedRead; a failing update is rethrown with the table unchanged; other tables unchanged |
| Notifications.MarkReadIdempotent | lib/notifications.ts:86-93 | marking twice at the same moment equals marking once; marking later changes no read flag |
| Notifications.MarkReadForeignIsNoop | lib/notifications.ts:86-93 | marking a notification that is not the caller's, or does not exist, leaves the table as it was |
| Notifications.MarkReadUnreadCount | lib/notifications.ts:86-93 | the caller's unread count drops by the number of unread rows addressed; no other user's count moves |
| Notifications.Deleted | lib/notifications.ts:100-107 | exactly the rows not matching both id and userId remain; the length drops by the number that matched |
| Notifications.DeleteNotification | lib/notifications.ts:100-112 | without a fault, reports success whether or not anything matched and the table becomes Deleted; a failing delete is rethrown with the table unchanged; other tables unchanged |
| Notifications.DeleteKeepsOtherInboxes | lib/notifications.ts:101-107 | a delete by one user leaves every other user's inbox identical |
| Notifications.CleanedUp | lib/notifications.ts:131-141 | exactly the rows that are not both read and older than 30 days remain |
| Notifications.CleanupOldNotifications | lib/notifications.ts:131-146 | without a fault, the returned count is the number of stale rows, which equals how much the table shrank; a failing delete is rethrown with the table unchanged |
| Notifications.CleanupKeepsUnread | lib/notifications.ts:133-137 | the cleanup never changes any user's unread count |
| NotificationsApi.ErrorStatus | pages/api/notifications/index.ts:79-89 | 503 exactly for `ER_CON_COUNT_ERROR`, 500 for every other error |
| NotificationsApi.PostedRow | pages/api/notifications/index.ts:30-47 | the posted row is unread, with a non-empty type and recipient; the recipient is the caller exactly when no other target was given |
| NotificationsApi.Handle | pages/api/notifications/index.ts:6-91 | without a session user: 401 and no change; otherwise 405 for other methods, the error status on a store failure, GET the caller's 20 newest, POST 201 with one appended row, PATCH/DELETE scoped to the caller's row |
| NotificationsApi.ListingIsDefaultInbox | pages/api/notifications/index.ts:17-23 | the route's own `LIMIT 20` query returns the same rows as getUserNotifications with its default limit |
| NotificationsApi.CallerScoped | pages/api/notifications/index.ts:52-74 | a PATCH or DELETE never changes another user's unread count or inbox |
| ComplaintsApi.PageSize | pages/api/auth/complaints/complaints.ts:48 | the page size is at least 1; missing or 0 gives 10, a negative value gives 1, a positive one is kept |
| ComplaintsApi.PageOffset | pages/api/auth/complaints/complaints.ts:49 | the offset is never negative; a non-negative value is kept |
| ComplaintsApi.Listing | pages/api/auth/complaints/complaints.ts:47-92 | exactly min(limit, visible rows past the offset) stored complaints, newest first; a non-admin sees only their own |
| ComplaintsApi.ListingPages | pages/api/auth/complaints/complaints.ts:47-92 | the rows an offset skips, followed by the page at that offset, are the first offset+limit rows, and every skipped row is no older than every row on the page |
| ComplaintsApi.ListingComplete | pages/api/auth/complaints/complaints.ts:51-92 | a first page large enough holds all complaints for an admin and all of a user's own complaints |
| ComplaintsApi.EvidenceAllowedIgnoresCase | pages/api/auth/complaints/complaints.ts:110-118 | the evidence-extension check gives the same answer for a name and its lower-cased form |
| ComplaintsApi.SchemaErrors | pages/api/auth/complaints/complaints.ts:15-29 | the error set is exactly the fields that fail their rule, and never an optional field |
| ComplaintsApi.SchemaPassed | pages/api/auth/complaints/complaints.ts:15-29 | a passing form has non-empty name, student id, exam name and type, a valid email and date, a description of ≥ 10 and a resolution of ≥ 5 characters |
| ComplaintsApi.MissingFieldsRejected | pages/api/auth/complaints/complaints.ts:140-160 | an absent required field becomes "" and fails validation on that field |
| ComplaintsApi.NewComplaintShape | pages/api/auth/complaints/complaints.ts:177-206 | the row is owned by the session user; the evidence is NULL exactly when no URL was given; a validated row is admissible |
| ComplaintsApi.PostAsWritten | pages/api/auth/complaints/complaints.ts:100-216 | without a refused file, one answer, 200 exactly when the form is stored; a refused file gets 400 first, yet a valid form is still stored, then answered 200, and the catch tries a third answer, 500 |
| ComplaintsApi.Post | pages/api/auth/complaints/complaints.ts:100-216 | 200 exactly when the file is allowed and the form is stored; any other answer stores nothing; admissibility of the table is preserved |
| ComplaintsApi.Handle | pages/api/auth/complaints/complaints.ts:31-225 | a malformed cookie gives 400, a missing user or role gives 401; GET lists with the clamped page and changes nothing; POST answers first as written (400 for a refused file, else 200 exactly when stored) and stores a valid form even after a refused file; other methods give 405 |
| ComplaintActions.Errors | app/actions/complaint-actions.ts:8-22 | the error set is exactly the failing fields, and never evidenceFile |
| ComplaintActions.Passes | app/actions/complaint-actions.ts:8-22 | with no errors, no field fails its rule |
| ComplaintActions.PassedFields | app/actions/complaint-actions.ts:8-22 | a passing form has the required texts, a valid email, the minimum lengths, and every optional key present |
| ComplaintActions.AbsentKeysFail | app/actions/complaint-actions.ts:47-70 | a form without the "resolution", "phone" or "course" key fails on that field, because null never passes |
| ComplaintActions.NameTokens | app/actions/complaint-actions.ts:109-110 | the first and last names hold no space; without a space the first is the whole name and the last is ""; otherwise the name opens with first + " " + last |
| ComplaintActions.TemporaryUserShape | app/actions/complaint-actions.ts:99-114 | the temporary account is a student for the submitted email and student id, named by the two tokens, whose password is the temporary one |
| ComplaintActions.TemporaryUserIsReused | app/actions/complaint-actions.ts:89-115 | an account created for a new email is the one the next lookup by that email finds |
| ComplaintActions.ActionComplaintShape | app/actions/complaint-actions.ts:117-152 | owned by the given user; course defaults to the exam name and department and faculty to "General"; a validated row is admissible |
| ComplaintActions.FindOrCreateUser | app/actions/complaint-actions.ts:88-115 | reuses the first account with the email, or inserts exactly one temporary student; complaints unchanged |
| ComplaintActions.StoreComplaint | app/actions/complaint-actions.ts:85-173 | the result, accounts and complaints after the store steps, as the Outcome/UsersAfter/ComplaintsAfter functions give them |
| ComplaintActions.OutcomeSucceeds | app/actions/complaint-actions.ts:122-172 | the result carries the reference number and id exactly when every statement ran and the date parsed; otherwise neither |
| ComplaintActions.AccountOutlivesBadDate | app/actions/complaint-actions.ts:96-127 | an invalid exam date stores no complaint, yet the temporary account stays and is found by its email |
| ComplaintActions.SubmitComplaint | app/actions/complaint-actions.ts:45-174 | a failing form returns its field errors and writes nothing; a passing one behaves as StoreComplaint, and a stored complaint is admissible |
| Analytics.BuildWhere | pages/api/admin/analytics.ts:21-43 | the built clause and parameters are Clause(f) and Params(f), with as many placeholders as parameters |
| Analytics.ClauseLockStep | pages/api/admin/analytics.ts:22-43 | the clause's placeholder count equals the parameter count for every filter combination |
| Analytics.AllAddsNothing | pages/api/admin/analytics.ts:35-43 | status or type 'all' yields the same clause and parameters as an absent filter; there are never more than 4 parameters |
| Analytics.ClauseExtremes | pages/api/admin/analytics.ts:22-43 | no filter gives `WHERE 1=1` with no parameters; all four give the parameters in the order startDate, endDate, status, type |
| Analytics.StatementsBound | pages/api/admin/analytics.ts:48-165 | every executed statement, including the two that splice the clause twice with doubled parameters, has exactly as many placeholders as parameters |
| Analytics.ResponseClausePlaceholders | pages/api/admin/analytics.ts:163 | the response-statistics rewrite keeps the placeholder count, turns the leading `WHERE 1=1` into `WHERE c.id IS NOT NULL`, and leaves no bare `createdAt` |
| Analytics.QualifiedPart | pages/api/admin/analytics.ts:163 | rewriting one filter condition qualifies its column when it is `createdAt` and leaves it otherwise |
| Analytics.ResponseClauseOfFilters | pages/api/admin/analytics.ts:22-43 | for every filter set, the rewritten clause is `WHERE c.id IS NOT NULL` followed by the present conditions in order, with the date conditions on `c.createdAt` |
| Analytics.TotalReverse | pages/api/admin/analytics.ts:169-178 | the total is the same after `trends.reverse()` |
| Analytics.TotalBounds | pages/api/admin/analytics.ts:178 | with non-negative counts, the total is non-negative and at least every day's count |
| Analytics.Handle | pages/api/admin/analytics.ts:5-190 | 405 for non-GET and 401 without an admin, both before any query; otherwise the statements run are exactly Statements(Clause(f), Params(f)), the 8 statements built from the filters' clause and parameters, all bound, and 200 with the total over the first 30 trend rows, or 500 on failure |
| PasswordActions.LinkCarries | app/actions/password-actions.ts:36 | the reset link starts with the app URL and carries the token and the user id in their places |
| PasswordActions.RequestPasswordReset | app/actions/password-actions.ts:9-50 | result and token table as RequestOutcome/TokensAfterRequest give them; a link exactly when the insert ran for an existing account |
| PasswordActions.RequestHidesAccount | app/actions/password-actions.ts:14-25 | without faults the request always reports success; no token is issued exactly when no user has that email and role |
| PasswordActions.RequestIssuesOneToken | app/actions/password-actions.ts:27-34 | exactly one row is appended, bound to the account's id, the requested role and the token, expiring 3600000 ms after the request |
| PasswordActions.ResetPassword | app/actions/password-actions.ts:53-97 | result, users and tokens as ResetOutcome/UsersAfterReset/TokensAfterReset give them |
| PasswordActions.ResetNeedsLiveToken | app/actions/password-actions.ts:57-70 | success exactly when nothing throws and a row matches token and user with expiry strictly after now; otherwise "Invalid or expired reset token" and nothing changes |
| PasswordActions.ResetChangesOnlyUser | app/actions/password-actions.ts:76-79 | only the user's rows change, and on success they accept the new password |
| PasswordActions.ResetIsSingleUse | app/actions/password-actions.ts:81-84 | after a success no one can redeem the same token again |
| PasswordActions.FailedDeleteLeavesToken | app/actions/password-actions.ts:76-96 | when the DELETE throws, the password has changed, the action reports failure, and the token still redeems |
| PasswordActions.IssuedTokenRedeems | app/actions/password-actions.ts:29-70 | a freshly issued token redeems for its account exactly before the one-hour expiry |
| ForgotPasswordApi.Handle | pages/api/auth/forgot-password.ts:7-37 | reply and tokens as ForgotReply/TokensAfterForgot give them; a link carrying the token and user id exactly on 200 |
| ForgotPasswordApi.ForgotIssuesOneToken | pages/api/auth/forgot-password.ts:24-30 | 200 exactly when one row is appended, for the account with that email, role defaulting to 'student', expiring one hour ahead; otherwise no row |
| ForgotPasswordApi.ForgotRevealsAccount | pages/api/auth/forgot-password.ts:15-22 | a POST answers 404 exactly when no user, of any role, has the email |
| ForgotPasswordApi.RequestPathsDiffer | pages/api/auth/forgot-password.ts:15-22 | for an unknown email the action reports success while the route answers 404; with the email under another role the action issues nothing and the route issues a token |
| ResetPasswordApi.Handle | pages/api/auth/reset-password.ts:11-44 | reply, users and tokens as ResetReply/UsersAfterApiReset/TokensAfterApiReset give them, including a body without a password |
| ResetPasswordApi.MissingPasswordThrows | pages/api/auth/reset-password.ts:16-33 | without a password the token checks answer as usual; once they pass, bcrypt's hash rejects and the route, having no try/catch, writes no reply, and neither table changes |
| ResetPasswordApi.ApiResetAccepts | pages/api/auth/reset-password.ts:19-37 | with a password, 200 exactly when the first matching row has not expired (expiresAt ≥ now); no row gives 400 "Invalid or expired token"; only the user's rows change and they accept the new password |
| ResetPasswordApi.ApiResetIsSingleUse | pages/api/auth/reset-password.ts:39-42 | after an accepted reset the same token and user are refused, with or without a password |
| ResetPasswordApi.BoundaryDiffers | pages/api/auth/reset-password.ts:29-31 | a token expiring exactly now is accepted by the route and refused by the action |
| ResetPasswordApi.DeletionDiffers | pages/api/auth/reset-password.ts:39-42 | a row with the same token for another user survives the route's delete but not the action's |
| PasswordChange.ChangePassword | pages/api/auth/update-password.ts:6-74 | reply and users as ChangeReply/UsersAfterChange give them for the route's policy |
| PasswordChange.UpdatePassword | pages/api/auth/update-password.ts:6-74 | the shared ladder with an 8-character minimum, scoped to the session user's id |
| PasswordChange.AdminChangePassword | pages/api/auth/change-password.ts:6-65 | the shared ladder with a 6-character minimum, scoped to id AND role 'admin' |
| PasswordChange.StudentChangePassword | pages/api/student/change-password.ts:6-60 | the shared ladder with a 6-character minimum, scoped to the id |
| PasswordChange.ChangeSucceedsExactly | pages/api/auth/update-password.ts:9-66 | 200 exactly when every check passes and the current password matches the addressed account; any other answer changes nothing |
| PasswordChange.LadderOrder | pages/api/auth/update-password.ts:9-33 | 405 comes before 401, and 401 before the field checks; these answers do not depend on the table or the store |
| PasswordChange.ChangeReplacesPassword | pages/api/auth/update-password.ts:54-66 | after a change, the addressed rows accept the new password and no longer the old one, unless the two are equal; unaddressed rows are unchanged |
| PasswordChange.AdminRouteSparesOthers | pages/api/auth/change-password.ts:28-52 | a non-admin row never changes; a caller whose only rows are non-admin gets 404 "Admin not found" |
| PasswordChange.MinimumsDiffer | pages/api/auth/update-password.ts:31-33 | a 6- or 7-character password is refused by update-password and passes the length check of the other two routes |
| AuthActions.RegisterAdmin | app/actions/auth.ts:10-70 | result and users as RegisterAdminOutcome/UsersAfterRegisterAdmin give them |
| AuthActions.RegisterAdminKeepsEmailsDistinct | app/actions/auth.ts:25-57 | admin emails stay distinct; an existing admin email changes nothing; a success appends one admin whose empty optional fields are NULL |
| AuthActions.RegisterStudent | app/actions/auth.ts:78-139 | result and users as RegisterStudentOutcome/UsersAfterRegisterStudent give them |
| AuthActions.RegisterStudentKeepsAccountsDistinct | app/actions/auth.ts:95-125 | emails and student ids stay distinct; a clash on either changes nothing; success is exactly one appended student with the submitted email |
| AuthActions.LoginUserAdmits | app/actions/auth.ts:145-188 | a sign-in is admitted exactly when the first account with the email and the searched role accepts the password; an unknown email and a wrong password give the same message |
| AuthActions.LoginIgnoresOtherRoles | app/actions/auth.ts:149-151 | adding accounts of the other role, before or after, does not change a sign-in |
| AuthActions.SignInAccountIgnores | app/actions/auth.ts:195-197 | the account a sign-in checks is unaffected by rows of other roles |
| AuthActions.LoginSession | app/actions/auth.ts:191-245 | login admits exactly whom loginUser admits; the session carries the generated id, the user id and the requested role, with empty scope fields NULL |
| AuthActions.CurrentUserIsSessionUser | app/actions/auth.ts:266-304 | a user is returned exactly when a cookie decodes and a row matches both its id and its role; that user is that row's profile, without the password |
| AuthActions.SignInThenCurrentUser | app/actions/auth.ts:220-299 | after a sign-in, reading the current user finds the signed-in account with the requested role; with unique ids it finds exactly its profile |
| AdminProfile.Handle | pages/api/admin/profile.ts:5-80 | reply and users as ProfileResponse/UsersAfterProfile give them, for a throw in `getDb`, in the branch's first statement or in the PUT's read-back; other tables unchanged |
| AdminProfile.Put | pages/api/admin/profile.ts:32-72 | the UPDATE takes effect exactly when the form is complete and the UPDATE does not throw, even if the read-back then throws; the reply is PutResponse over the table it leaves |
| AdminProfile.ProfileGuards | pages/api/admin/profile.ts:10-78 | a non-admin gets 401 for every method; other methods get 405; a PUT missing a required field gets 400; none of these changes the table, nor does a 500 from a throw before the UPDATE; a throw in the read-back answers 500 with the row already edited |
| AdminProfile.ProfileUpdateScoped | pages/api/admin/profile.ts:41-54 | only the caller's own admin row changes, and it keeps its id, role, password and creation time |
| AdminProfile.PutShowsEdit | pages/api/admin/profile.ts:41-72 | a PUT succeeds exactly when a GET would find the row; it answers with the submitted values plus bio null and adminLevel "Standard", as a following GET would; otherwise 404 with nothing changed |
| DbPool.Connection.constructor | lib/db.ts:40-41 | the module starts with no pool and not initialised |
| DbPool.Connection.GetDb | lib/db.ts:171-185 | creates a pool only when there is none; otherwise returns the same pool; does not touch `isInitialized` |
| DbPool.Connection.InitDb | lib/db.ts:44-169 | a no-op once initialised; otherwise sets `isInitialized` only when every statement succeeds |
| DbPool.Connection.CloseDb | lib/db.ts:188-195 | clears both the pool and `isInitialized` |
| DbPool.Connection.ExecuteQuery | lib/db.ts:211-253 | the outcome and attempt count follow RetryEvery; the pool is dropped exactly when a connection-lost error ends the query; `isInitialized` survives exactly when no attempt lost the connection |
| DbPool.RetryEveryOutcome | lib/db.ts:212-252 | between 1 and 3 attempts, all but the last failed; runs exactly when some attempt in the window succeeds; otherwise the third error is thrown; the final throw is unreachable |
| DbPool.UpdateAnswer | lib/db.ts:264-280 | used by UpdateUserPassword and HelpersDifferOnUnknownUser: true exactly when some row has the id, or the error message after a failed query |
| DbPool.UpdateUserPassword | lib/db.ts:264-280 | answers UpdateAnswer: true exactly when some row has the id, with the row updated; after a failed query, "Failed to update password" with the table unchanged |
| DbPool.VerifyAnswer | lib/db.ts:283-299 | used by VerifyUserPassword and HelpersDifferOnUnknownUser: false for an unknown user, the bcrypt comparison for a known one, or the error message |
| DbPool.VerifyUserPassword | lib/db.ts:283-299 | answers VerifyAnswer: false for an unknown user, the bcrypt comparison for a known one, "Failed to verify password" when the query fails |
| DbPool.UpdateThenVerify | lib/db.ts:264-299 | an update reports true exactly when the id exists, and then verifying the new password reports true; otherwise the table is unchanged |
| DbNewPool.Connection.constructor | lib/db-new.ts:22-23 | the module starts with no pool and not initialised |
| DbNewPool.Connection.GetDb | lib/db-new.ts:25-45 | creates the pool once and marks the module initialised, without creating any table |
| DbNewPool.Connection.CloseDb | lib/db-new.ts:48-55 | clears both the pool and `isInitialized` |
| DbNewPool.Connection.ExecuteQuery | lib/db-new.ts:70-99 | the outcome and attempt count follow RetryTransient; the pool is dropped exactly when a transient error ends the query |
| DbNewPool.RetryTransientOutcome | lib/db-new.ts:71-96 | between 1 and 3 attempts, all but the last failed transiently; a non-transient error is thrown at its first occurrence; the loop never falls through |
| DbNewPool.PoliciesAgreeOnTransient | lib/db-new.ts:70-99 | when every failure is transient, both modules' policies give the same outcome, error and attempt count |
| DbNewPool.PoliciesDifferOnTimeout | lib/db-new.ts:81-96 | a timeout followed by success runs in lib/db.ts on the 2nd attempt but is thrown here after 1 |
| DbNewPool.UpdateAnswer | lib/db-new.ts:199-211 | used by UpdateUserPassword and HelpersDifferOnUnknownUser: true whenever the UPDATE runs, or the error message |
| DbNewPool.UpdateUserPassword | lib/db-new.ts:199-211 | answers UpdateAnswer: true whenever the UPDATE runs, matched or not; on failure, "Failed to update password" with the table unchanged |
| DbNewPool.VerifyAnswer | lib/db-new.ts:214-231 | used by VerifyUserPassword and HelpersDifferOnUnknownUser: an unknown user or a failing store gives the error; otherwise the bcrypt comparison |
| DbNewPool.VerifyUserPassword | lib/db-new.ts:214-231 | answers VerifyAnswer: an unknown user or a failing store gives "Failed to verify password"; otherwise the bcrypt comparison |
| DbNewPool.HelpersDifferOnUnknownUser | lib/db-new.ts:199-229 | for an unknown id the update leaves the table unchanged, lib/db.ts answers false to both the update and the check, and this module answers true to the update and an error to the check; for a known id the two agree |
| UploadApi.UploadGuards | pages/api/upload.ts:41-57 | non-POST gives 405, no session user 401, a type other than profile/evidence 400, in that order; a guarded request stores nothing |
| UploadApi.TypesDiffer | pages/api/upload.ts:72-74 | .gif is for profile only; .pdf/.doc/.docx for evidence only; .jpg/.jpeg/.png for both; an extension shorter than 4 for neither |
| UploadApi.WhitelistByType | pages/api/upload.ts:72-79 | the check ignores case and follows the per-type lists; a name without an extension is refused by both |
| UploadApi.StemIsPlain | pages/api/upload.ts:112-115 | the `${userId}-${timestamp}` stem is non-empty and holds '/' or '.' only if the user id does |
| UploadApi.ObjectKeepsExtension | pages/api/upload.ts:112-115 | for a plain user id the object's extension is the original name's, as written, so the object passes the same whitelist |
| UploadApi.ObjectInFolder | pages/api/upload.ts:112-115 | every object name starts with its type's folder and '/' |
| UploadApi.NameKeepsExtension | pages/api/upload.ts:114-115 | a plain stem under a folder, followed by an extension, has that extension |
| UploadApi.UploadWritesWhatItNames | pages/api/upload.ts:99-150 | an object is written exactly when the answer is 200, under ObjectName, and the answer carries its public URL; an allowed file is handled exactly as the route as written handles it |
| UploadApi.UploadAsWritten | pages/api/upload.ts:41-150 | at least one answer is attempted; the discrepancy itself is stated by RefusedFileIsStored |
| UploadApi.Upload | pages/api/upload.ts:41-150 | exactly one answer per request |
| UploadApi.RefusedFileIsStored | pages/api/upload.ts:76-150 | as written, a profile upload of a PDF is answered 400 and still stored under the profile folder; the corrected route answers 400 and stores nothing |

## Left out

- SQL text is modelled as token lists (words and `?` placeholders). Column
  projections, JOINs, `GROUP BY`, and MySQL's `AVG`/`ROUND`/`DATEDIFF`/`HOUR`
  and date arithmetic are not evaluated. The analytics distributions and
  averages are therefore left out; only placeholder binding and the trend
  total are modelled.
- Which analytics query throws is not modelled, only whether one does. The
  monthly comparison is a statement with no parameters.
- `toLowerCase` is modelled for ASCII letters only. `path.extname` is
  modelled for names without a trailing '/'.
- Lengths are counted in characters, not UTF-16 code units.
- `Math.floor` of a fractional or NaN notification limit is not modelled:
  the limit is an integer.
- Time intervals are fixed millisecond counts:
  - the 30-day notification retention;
  - the one-hour token expiry;
  - the 1–2 s retry backoff, which is left out.
- The mysql2 pool's internals are left out: its connection limit, queueing,
  and what `pool.end()` does. A pool is identified by a counter.
- `Promise.all` in createSystemNotification is modelled as sequential
  inserts in admin order. Every insert is issued, so the ones that succeed
  all land; the rejection is taken to be the first failure in admin order,
  whereas `Promise.all` rejects with whichever failure settles first.
- Notifications.CreateNotification returns the whole stored row. The source
  returns `{ id, ...data, isRead: false }`, which has no `readAt`,
  `createdAt` or `updatedAt`; in the model's return value those fields
  carry the row's column values (None, now, now).
- getUserNotifications and getUnreadNotificationCount rethrow a failing
  query. They are modelled as query results only; the notifications route
  models the failure as a fault.
- `UNIQUE` and `PRIMARY KEY` constraints are not enforced by the store.
  Lemmas that need unique ids or emails take that as a hypothesis.
- A bind parameter that is `undefined`: mysql2's `execute` refuses it with a
  TypeError, and executeQuery in lib/db.ts retries that error like any
  other and then rethrows it. The model follows this only for
  createSystemNotification (see Findings). Everywhere else it treats an
  undefined bind as NULL, which is what the code evidently intends. The
  bind sites concerned are:
  - the admin profile PUT's phone, department, position, faculty and
    profilePicUrl (pages/api/admin/profile.ts:41-54);
  - the forgot-password email and the reset-password token and user id;
  - the notifications POST's title, message and relatedId, and the
    notification id of a PATCH or DELETE;
  - a createNotification call without relatedId.
  NotificationsApi.Handle (POST answered 201), AdminProfile.Handle and
  AdminProfile.PutShowsEdit (PUT answered 200) depend on this choice: with
  the driver's behaviour, those requests answer 500 instead whenever one of
  the values is absent.
- SQL text comparison (`email = ?`, `role = ?`, the `UNIQUE` key on
  users.email) is modelled as exact equality. MySQL's default collation
  compares case-insensitively and ignores trailing spaces, so an email that
  differs only in case matches there and not in the model. This bears on
  AuthActions.LoginUserAdmits, ForgotPasswordApi.ForgotRevealsAccount and
  the distinctness lemmas of AuthActions.
- lib/auth.ts is not part of this model. The results of
  `getSessionFromRequest`, `verifyAdminAuth` and `verifyStudentAuth` are
  inputs.
- Email delivery (lib/email.ts), Google Cloud Storage, formidable's multipart
  parsing, and temp-file handling are I/O and are left out. They appear only
  as their outcomes: the link built, the object name, whether the parse or
  the stream failed. Only the first value of a multipart field is modelled.
- The upload route's content type, its 10 MB limit, and its "Failed to make
  file public" and "Failed to process uploaded file" branches are left out.
- `generateId`, `generateReferenceNumber` and uuid are inputs.
- bcrypt's salt and cost are not modelled: `Base.Hash` is deterministic and
  injective, whereas a real digest differs on every call and bcryptjs
  compares only the first 72 bytes of a password.
- PasswordChange.ChangeReplacesPassword: its clause "the new digest accepts
  the old password exactly when the two are equal", and Base.MatchesExactly,
  rest on that injectivity. Under bcryptjs, two passwords sharing their
  first 72 bytes both match the same digest, so the old password keeps
  working after a change to such a new one.
- `testConnection` in both pool modules and the `getNotifications` alias are
  left out: they add no logic.
- The CREATE TABLE statements of lib/db.ts appear only as the record types
  and the `schemaReady` flag. Which statement fails is not modelled.
- The forgot-password and reset-password routes have no try/catch. A store
  error there is not modelled.
- UploadApi.ObjectKeepsExtension: it requires a user id without '/' or '.'.
  With a '.' in the user id, `path.extname` of the object name can pick up the
  user id's dot.
- DbNewPool.Connection.InitDb has no contract: it returns before its first
  statement and changes nothing.
- ComplaintActions.StoreComplaint, the handler methods, and the pool methods
  change `db` or the connection. Their contracts are stated against
  specification functions whose properties are proved as the lemmas above.

## Findings

| source | as written | input that shows it | evidently intended | confidence | as-written member | corrected member |
|---|---|---|---|---|---|---|
| pages/api/auth/complaints/complaints.ts:110-121 | the `fileBegin` listener answers 400 for a disallowed evidence file, but returning from the listener does not stop the parse; the callback still validates, inserts the complaint and answers again | a valid complaint form with an evidence file named `notes.exe` | a disallowed file ends the request with 400 and no complaint is stored | not executed | ComplaintsApi.PostAsWritten | ComplaintsApi.Post |
| lib/notifications.ts:42-51 | createSystemNotification calls createNotification without `relatedId`, so each insert binds `undefined`, which mysql2's `execute` refuses with a TypeError; every insert fails and the call rethrows | any call while at least one user has role 'admin' | one notification per admin, with `relatedId` stored as NULL | not executed | Notifications.SystemNotificationThrowsAsWritten | Notifications.CreateSystemNotification |
| pages/api/upload.ts:76-91 | the `fileBegin` listener answers 400 for a disallowed extension, but the parse callback still writes the file to the bucket and then tries to answer 200 with its URL; that second answer throws, and the catch tries a 500 | a POST with `type=profile` and a file `cv.pdf` | a refused file is answered 400 and never stored | not executed | UploadApi.RefusedFileIsStored | UploadApi.Upload |

ComplaintsApi.Handle answers a POST as the route is written, through
ComplaintsApi.PostAsWritten, since that is what the route does today.
ComplaintsApi.Post is the corrected POST branch, with its property proved
beside it.
