# Filográficos backend core, modelled in Dafny

This project models the core of an Express/Mongoose backend:

- **Account security.** Registration, login with a failed-attempt counter and a lock flag, logout, password changes with a history of former hashes, password-rotation checks and bulk session revocation.
- **Regulatory documents.** A version manager: every document keeps a list of versions. Exactly one version is meant to be current ("vigente"). Versions and whole documents are soft-deleted and restored.
- **Company record, e-mail templates and e-mail types.** These are soft-deleted CRUD collections.
- **Decisions around the handlers.** A role gate, an ownership gate, the session-expiry gate, the request validator for regulatory documents, the failed-login incident report and the error-to-response classifier.

Every MongoDB collection is a `seq` field of a store class, which the handlers update in place:

- `Store.Database` holds users, accounts, sessions, failed attempts and password history.
- `RegulatoryDocuments.DocumentStore`, `CompanyProfile.CompanyStore`, `EmailTemplates.TemplateStore` and `EmailTypes.TypeStore` hold the rest.

Queries follow MongoDB in store order:

- `findOne` is the first match (`Query.FindFirst`).
- A `sort(...)[0]` or a `findOne().sort(...)` is the first among the greatest keys (`Query.LatestIndex`). This matches a stable sort.

Each handler becomes a method. It takes the request's fields and returns the HTTP status. Its `ensures` gives the whole new state of the store. The read-only handlers and the per-document operations are functions.

Where the code leaves a field out or sends a falsy value, the model uses "" (or `None` for non-string values). Hashes are `Bcrypt(salt, password)`. The salt is a parameter, and a password matches only its own hash.

## Model

| member | source | states |
|---|---|---|
| Base.HashPassword | src/services/authService.js:11-20 | the hash verifies the hashed password and no other password |
| Schema.EstadoFromString | src/models/User.js:31-35 | a user state is admitted exactly when it is one of the four enum values |
| Store.RevokeAt | src/controllers/authController.js:161-169 | revoking a session marks that session revoked and leaves every other session as it was |
| AuthUtils.CheckPasswordRotation | src/utils/authUtils.js:6-24 | a change is required exactly when there is no last-change date or it is older than six months; a warning is given exactly when the date lies between six months and five days ago |
| AuthUtils.RequiredChangeIsNotWarned | src/utils/authUtils.js:12-15 | a required change never carries a warning |
| AuthUtils.ExactlySixMonthsIsOnlyWarned | src/utils/authUtils.js:12-19 | the six-month comparison is strict, so a change made exactly six months ago is only warned about |
| AuthUtils.RecentChangeIsQuiet | src/utils/authUtils.js:17-23 | a change within the last five days yields neither a change nor a warning |
| AuthUtils.RotationIsMonotone | src/utils/authUtils.js:12-23 | an older change never gets a milder status, and a missing date gets the strongest |
| AuthService.RecordFailureIncrements | src/services/authService.js:55-71 | a user's first failure creates a count of 1; each later failure raises the count by exactly 1 |
| AuthService.RecordFailureIsolated | src/services/authService.js:55-71 | one user's failure leaves every other user's count unchanged |
| AuthService.LockIsSticky | src/services/authService.js:67-82 | once the count reaches 5, every further failure also reports locked |
| AuthService.FailuresCount | src/services/authService.js:55-71 | n consecutive failures raise the count by exactly n |
| AuthService.LockoutThreshold | src/services/authService.js:51-82 | starting from no record, the n-th failure reports locked exactly when n >= 5 |
| AuthService.RecordFailureKeepsAtMostOne | src/services/authService.js:55-69 | find-or-create never gives anyone a second failed-attempt record |
| AuthService.ClearRestartsCount | src/services/authService.js:88-90 | clearing removes the user's record, so the next failure counts 1 again |
| AuthService.RequireChangeOnlyFlag | src/services/authService.js:75-79 | locking changes only `requiere_cambio` of the user's account, and only when the account exists |
| AuthService.HandleFailedAttempt | src/services/authService.js:50-85 | saved exactly when the user has a record or the address is non-empty (a new record needs the required `ip`); an unsaved failure changes nothing and is not locked; a saved one finds or creates the counter, is locked exactly when the count is >= 5, and only then flags the account; nothing else changes |
| AuthService.ClearFailedAttempts | src/services/authService.js:88-90 | the user's first failed-attempt record is deleted; nothing else changes |
| AuthService.LockAccount | src/services/authService.js:93-100 | always reports locked; flags the user's account when there is one |
| AuthService.ForcePasswordRotation | src/services/authService.js:103-119 | fails exactly when no account has the id; otherwise gives the rotation status of that account's last change date |
| UserService.FindReuse | src/services/userService.js:16-28 | the loop reports reuse exactly when the new password verifies against some history entry |
| UserService.HistoryOfFindsReuse | src/services/userService.js:16 | searching the account's own entries finds reuse exactly when some entry of that account matches |
| UserService.TrackPasswordHistory | src/services/userService.js:9-44 | succeeds exactly when the account has no matching former hash; only then is the current hash appended to the history |
| UserService.ChangingBackIsRefused | src/services/userService.js:30-36 | after a successful change, going back to the replaced password is refused |
| UserService.ReuseIsPermanent | src/services/userService.js:16-28 | appending to the history never turns a refused password into an accepted one |
| UserService.ReuseIsPerAccount | src/services/userService.js:16 | another account's history entries never cause a refusal |
| UserController.UpdatedProfile | src/controllers/userController.js:26-28 | `nombre` and `telefono` are overwritten only when truthy, `direccion` only when sent; nothing else changes |
| UserController.UpdatedProfileIdempotent | src/controllers/userController.js:26-28 | applying the same profile update twice is the same as applying it once |
| UserController.EmptyProfileUpdateIsIdentity | src/controllers/userController.js:26-28 | an empty body leaves the user unchanged |
| UserController.UpdateProfile | src/controllers/userController.js:14-36 | 404 for an unknown user with no change; otherwise 200 and the partial update is saved |
| UserController.UpdateUserProfile | src/controllers/userController.js:38-75 | the user lookup comes first (404); an incomplete address gives 400; 200 exactly when both checks pass, and then the address is replaced |
| UserController.ChangePassword | src/controllers/userController.js:91-126 | 404 without an account; 200 exactly when the current password verifies and the new one was never used, and 400 otherwise; on 200 the new hash and date are saved and the old hash enters the history; otherwise no change |
| UserController.ChangedPasswordState | src/controllers/userController.js:102-120 | after a change the new password verifies, the old one does not, and the old one is refused from then on |
| UserController.PurgeHistory | src/controllers/userController.js:150 | exactly the history entries whose `account_id` equals the deleted user's id are removed |
| UserController.PurgeAttempts | src/controllers/userController.js:153 | exactly the user's failed-attempt records are removed |
| UserController.PurgeSessions | src/controllers/userController.js:156 | exactly the user's sessions are removed |
| UserController.RemoveAccountOf | src/controllers/userController.js:147 | the user's first account is removed, and no other account |
| UserController.DeleteClientAccount | src/controllers/userController.js:128-163 | `deleteMyAccount`, and `deleteCustomerAccount` at lines 255-290, which runs the same checks and cascade: 404 for an unknown user; 403 for a non-client; otherwise 200 and the user, the account and the user's history entries, attempts and sessions are removed |
| UserController.DeletionClearsUserRecords | src/controllers/userController.js:153-156 | no session and no attempt record of the deleted user remains; every session and attempt record of other users is kept |
| UserController.DeletionKeepsAccountHistory | src/controllers/userController.js:147-150 | the account's own history entries survive the purge whenever the account id differs from the user id |
| UserController.DeletionLeavesOrphanHistory | src/controllers/userController.js:147-150 | a concrete store in which a deleted user's password history survives |
| UserController.Summarize | src/controllers/userController.js:174-200 | `sesion_activa` is true exactly when the user has an unrevoked session; the reported session is the newest unrevoked one |
| UserController.GetAllUsersWithSessions | src/controllers/userController.js:168-208 | one row per user, in store order; row k is the summary of user k, active exactly when that user has an unrevoked session |
| UserController.SummaryIgnoresOtherUsers | src/controllers/userController.js:176 | revoking another user's session does not change this user's row |
| UserController.NewEstado | src/controllers/userController.js:233-245 | "bloquear" gives bloqueado and "activar" gives activo; "suspender" gives a state the enum rejects |
| UserController.DeactivateAccount | src/controllers/userController.js:210-253 | 400 for an invalid action; 404 for an unknown user; 400 when the admin targets themself; 500 for "suspender"; otherwise 200 and only that user's `estado` changes |
| AuthController.NewUser | src/controllers/authController.js:45-51 | a registered user starts `pendiente`, with no address and the given role and MFA flag |
| AuthController.NewAccount | src/controllers/authController.js:59-71 | the new account's hash verifies the password; no change is required; the change date is now; TOTP is set exactly when MFA is on |
| AuthController.Register | src/controllers/authController.js:14-80 | 400 when the body is invalid or the e-mail is taken; 500 when a required field is empty; otherwise 201, the user and the account are appended with fresh ids, and ids stay fresh |
| AuthController.RegisteredUserCanBeFound | src/controllers/authController.js:39-73 | after registering, login finds the new user by e-mail (if no one else had it) and finds its account |
| AuthController.VerifyMfaCode | src/controllers/authController.js:229-234 | every code is accepted |
| AuthController.NewSession | src/controllers/authController.js:134-143 | a new session is unrevoked and expires one hour after creation |
| AuthController.Login | src/controllers/authController.js:83-152 | the checks run in order: the validator (400 with nothing changed), user and account (400 with nothing changed), password (a failure is recorded and gives 400, or 500 with nothing recorded when a first failure has no address), MFA code; success clears the counter; a session with an empty token, address or browser gives 500; 200 appends one session; only 200 changes the sessions |
| AuthController.Logout | src/controllers/authController.js:155-175 | 404 when no session matches the user and token; otherwise that session is revoked |
| AuthController.LogoutIsIdempotent | src/controllers/authController.js:161-169 | logging out twice changes nothing the second time |
| AuthController.ChangePasswordValidated | src/controllers/authController.js:177-223 | 400 on validation; 404 without an account; 400 when the current password does not verify or the new one was used; after a save: 404 for a missing user, 500 when the notifier fails, 200 otherwise |
| AuthController.RevokeAll | src/controllers/authController.js:237-243 | every session of the user ends revoked; nothing else in any session changes |
| AuthController.RevokeTokens | src/controllers/authController.js:237-243 | the store's sessions become the bulk revocation of the user's sessions |
| AuthController.RevokeAllProperties | src/controllers/authController.js:239 | afterwards the user has no active session, other users' rows are unchanged, and revoking again changes nothing |
| AuthController.RevokeAllSparesOthers | src/controllers/authController.js:239 | revoking one user's sessions leaves every other user's active flag as it was |
| TokenExpiration.ExpirationDecision | src/middlewares/verifyTokenExpiration.js:13-23 | only an expired token is answered (401); every other outcome calls `next` |
| TokenExpiration.RevokeByToken | src/middlewares/verifyTokenExpiration.js:16 | at most one session changes: the first with the token, which ends revoked; with no match nothing changes |
| TokenExpiration.VerifyTokenExpiration | src/middlewares/verifyTokenExpiration.js:8-30 | the decision follows the outcome, and sessions change only when the token expired |
| TokenExpiration.RevokeByTokenIdempotent | src/middlewares/verifyTokenExpiration.js:16 | a second expired request changes nothing more |
| RoleMiddleware.RoleGate | src/middlewares/roleMiddleware.js:14-27 | `next` exactly when the role is in the permitted list, 403 otherwise |
| RoleMiddleware.EmptyAndSingletonLists | src/middlewares/roleMiddleware.js:18 | an empty list admits nobody; a one-role list admits exactly that role |
| RoleMiddleware.RoleGateMonotone | src/middlewares/roleMiddleware.js:18 | widening the permitted list never rejects a request it admitted |
| OwnershipMiddleware.ResourceId | src/middlewares/checkOwnershipMiddleware.js:6 | the path id wins when truthy, otherwise the body's `user_id` is used |
| OwnershipMiddleware.OwnershipGate | src/middlewares/checkOwnershipMiddleware.js:4-20 | 400 without a resource id; `next` exactly when the resource id equals the token's user id; 403 otherwise |
| OwnershipMiddleware.PathIdShadowsBody | src/middlewares/checkOwnershipMiddleware.js:6 | with a path id the body's `user_id` does not matter |
| OwnershipMiddleware.OwnIdPasses | src/middlewares/checkOwnershipMiddleware.js:6-19 | the caller's own id passes from either place |
| ErrorHandler.HandleError | src/middlewares/errorHandler.js:24-66 | the rules apply in order: ValidationError 400 with one entry per field error; code 11000 409 with the key; 401; 403; 404; otherwise 500, with the message only in development |
| ErrorHandler.EnvironmentOnlyAffectsDetail | src/middlewares/errorHandler.js:62-65 | the environment never changes the status, and the message is hidden outside development |
| ErrorHandler.ValidationBeatsDuplicate | src/middlewares/errorHandler.js:28-44 | a validation error with code 11000 is still a 400 |
| IncidentUtils.Joined | src/utils/incidentUtils.js:9-18 | the lookup and unwind yield only existing users, at most one per attempt |
| IncidentUtils.JoinedAreFound | src/utils/incidentUtils.js:9-18 | each joined document is the user the store finds for the attempt's id |
| IncidentUtils.JoinedOccurrences | src/utils/incidentUtils.js:9-18 | the join keeps exactly the attempt records of users that exist |
| IncidentUtils.Group | src/utils/incidentUtils.js:20-27 | one row per user id, with `numero_intentos` equal to that user's joined records; no row with zero; each row's id, name, e-mail and type are those of a joined document (the `$first` fields) |
| IncidentUtils.GroupStepOrigin | src/utils/incidentUtils.js:20-27 | one group step keeps every row's fields taken from a document fed in |
| IncidentUtils.GroupStep | src/utils/incidentUtils.js:20-27 | adding one joined document keeps the grouping invariant |
| IncidentUtils.GroupRowCounts | src/utils/incidentUtils.js:25 | each row counts the documents of its own user |
| IncidentUtils.Insert | src/utils/incidentUtils.js:28-30 | inserting adds exactly the new row to the multiset of rows |
| IncidentUtils.InsertSorted | src/utils/incidentUtils.js:28-30 | inserting into a descending list keeps it descending |
| IncidentUtils.SortByAttempts | src/utils/incidentUtils.js:28-30 | the sort stage gives a permutation in descending order of attempts |
| IncidentUtils.FilterSorted | src/utils/incidentUtils.js:34-39 | filtering a descending list keeps it descending |
| IncidentUtils.GetFailedAttemptsData | src/utils/incidentUtils.js:6-42 | both lists are descending and hold only their own user type, and no row appears in both (soundness and completeness are `ReportedCountsAreRecords` and `ReportIsComplete`) |
| IncidentUtils.SplitIsExact | src/utils/incidentUtils.js:34-39 | each ranked row lands in the list of its own user type |
| IncidentUtils.ReportedCountsAreRecords | src/utils/incidentUtils.js:7-31 | a reported row belongs to an existing user and counts that user's attempt records |
| IncidentUtils.ReportIsComplete | src/utils/incidentUtils.js:6-42 | every existing user with at least one attempt record is listed, with that user's id, name, e-mail, type and record count, in the list for its type |
| IncidentUtils.GroupedRowIsExpected | src/utils/incidentUtils.js:9-27 | the group stage holds, for every existing user with a record, the row of that user's fields and record count |
| IncidentUtils.RankedRowIsReported | src/utils/incidentUtils.js:33-39 | a ranked row of a client lands in the client list and one of an administrator in the administrator list |
| IncidentUtils.ReportHasOneRowPerUser | src/utils/incidentUtils.js:20-30 | the report lists each user at most once |
| DocumentValidator.Trim | src/middlewares/validateRegulatoryDocument.js:7 | the trimmed text is a middle slice of the input with only JavaScript whitespace cut from each end, has no whitespace at either end, and is empty only for an all-whitespace input |
| DocumentValidator.MiddleAfterFront | src/middlewares/validateRegulatoryDocument.js:7 | cutting one more leading whitespace character still leaves a middle slice |
| DocumentValidator.MiddleBeforeBack | src/middlewares/validateRegulatoryDocument.js:7 | cutting one more trailing whitespace character still leaves a middle slice |
| DocumentValidator.TituloErrors | src/middlewares/validateRegulatoryDocument.js:5-10 | no title error exactly when the title is a string whose trimmed text is one of the three titles |
| DocumentValidator.ContenidoErrors | src/middlewares/validateRegulatoryDocument.js:13-15 | no content error exactly when the content is a non-empty string |
| DocumentValidator.FechaErrors | src/middlewares/validateRegulatoryDocument.js:18-20 | an absent date passes; a present one must be ISO 8601 |
| DocumentValidator.VersionErrors | src/middlewares/validateRegulatoryDocument.js:23-25 | an absent version passes; a present one must be digits, optionally followed by a dot and digits |
| DocumentValidator.ValidateRegulatoryDocument | src/middlewares/validateRegulatoryDocument.js:3-35 | `next` exactly when no chain reports an error; otherwise 400 with every error |
| DocumentValidator.MissingTitleReportsThreeErrors | src/middlewares/validateRegulatoryDocument.js:5-10 | a missing title reports all three title errors, because the chain does not stop at the first |
| DocumentValidator.TrimPadded | src/middlewares/validateRegulatoryDocument.js:7 | trimming removes exactly one added whitespace character of any kind at each end |
| DocumentValidator.PaddedTitleIsAccepted | src/middlewares/validateRegulatoryDocument.js:5-10 | a valid title padded with any whitespace characters is accepted |
| DocumentValidator.NoBreakSpaceTitleIsAccepted | src/middlewares/validateRegulatoryDocument.js:5-10 | a title led by a no-break space (U+00A0) is trimmed and accepted |
| RegulatoryDocuments.NatToDecimal | src/controllers/regulatoryDocumentController.js:27 | a version number prints as decimal digits |
| RegulatoryDocuments.DecimalRoundTrip | src/controllers/regulatoryDocumentController.js:26-27 | reading a printed version number back gives the number |
| RegulatoryDocuments.VersionLabelWellFormed | src/controllers/regulatoryDocumentController.js:27 | every "N.0" label the code creates passes the version format, and distinct numbers give distinct labels |
| RegulatoryDocuments.MaxVersion | src/controllers/regulatoryDocumentController.js:22-26 | the reduce gives the largest version number, deleted versions included, or 0 |
| RegulatoryDocuments.StatusLabel | src/controllers/regulatoryDocumentController.js:338 | "Eliminado" exactly when deleted; "Vigente" exactly when live and current; "No vigente" otherwise |
| RegulatoryDocuments.NewDocument | src/controllers/regulatoryDocumentController.js:58-72 | a new document holds the single current version "1.0" |
| RegulatoryDocuments.AddVersion | src/controllers/regulatoryDocumentController.js:12-43 | 400 exactly when no version is current; otherwise the first current version is cleared and version max+1 is appended as current; empty content fails the required check |
| RegulatoryDocuments.AddVersionNumbersAreFresh | src/controllers/regulatoryDocumentController.js:196-201 | the new number is above every existing number, so numbers stay distinct |
| RegulatoryDocuments.AddVersionKeepsSoleVigente | src/controllers/regulatoryDocumentController.js:187-216 | with one current version before, the new version is the only current one after |
| RegulatoryDocuments.DeleteVersion | src/controllers/regulatoryDocumentController.js:130-156 | 404 exactly for an unknown label; saved exactly when the first version with the label is live and another live version exists, otherwise 400; on save the document keeps its id, title and deletion flag, the version is deleted and the newest other live version (the first among equals) becomes vigente and current |
| RegulatoryDocuments.DeleteVersionCanLeaveTwoVigente | src/controllers/regulatoryDocumentController.js:141-154 | deleting a version does not clear other current flags, so two versions can end up current |
| RegulatoryDocuments.RestoreVersion | src/controllers/regulatoryDocumentController.js:432-455 | 404 for an unknown id; 400 unless deleted; the document keeps its id, title and deletion flag; a restored last version keeps its own fields, becomes live and the only current one; any other restore only undeletes it |
| RegulatoryDocuments.DeleteDocument | src/controllers/regulatoryDocumentController.js:94-105 | 400 exactly when the document is already deleted; otherwise it is marked deleted |
| RegulatoryDocuments.RestoreDocument | src/controllers/regulatoryDocumentController.js:394-405 | 400 exactly when the document is not deleted; otherwise it is restored |
| RegulatoryDocuments.DeleteRestoreRoundTrip | src/controllers/regulatoryDocumentController.js:99-104 | deleting and then restoring gives the document back, apart from its timestamp |
| RegulatoryDocuments.CurrentEntries | src/controllers/regulatoryDocumentController.js:246-260 | each entry is exactly the entry (id, title, number, content, validity date) of a document with a live vigente version; the list is empty exactly when no document has one (that every such document is listed is `CurrentEntriesComplete`) |
| RegulatoryDocuments.CurrentEntriesComplete | src/controllers/regulatoryDocumentController.js:246-260 | every document with a live vigente version has its entry (id, title, number, content, validity date) in the list |
| RegulatoryDocuments.EntryListed | src/controllers/regulatoryDocumentController.js:246-260 | the entry of any one document with a live vigente version is in the list, whatever its position |
| RegulatoryDocuments.GetAllCurrentVersions | src/controllers/regulatoryDocumentController.js:236-276 | 404 exactly when no entry results; entries come only from live documents |
| RegulatoryDocuments.LiveEntriesOrigin | src/controllers/regulatoryDocumentController.js:236-276 | every listed entry names a document of the store that is not deleted |
| RegulatoryDocuments.GetCurrentVersion | src/controllers/regulatoryDocumentController.js:279-313 | found exactly when the first live document with the title has a live vigente version; the entry carries that document's id and validity date and that version's number and content |
| RegulatoryDocuments.GetVersionHistory | src/controllers/regulatoryDocumentController.js:315-351 | none exactly when no live document has the title; otherwise the most recently updated one, each entry carrying its version's id, number, content, creation date and status label |
| RegulatoryDocuments.GetDocumentByIdAsWritten | src/controllers/regulatoryDocumentController.js:353-385 | 404 exactly when no document has the id; 500 exactly when one has it, because building the response throws |
| RegulatoryDocuments.GetDocumentById | src/controllers/regulatoryDocumentController.js:353-385 | the intended handler: 404 exactly when no document has the id; otherwise 200 with a stored document of that id, deleted or not |
| RegulatoryDocuments.StoredDocumentIsNotServed | src/controllers/regulatoryDocumentController.js:368-378 | a stored document is answered with 500 as written and with 200 and the document as intended |
| RegulatoryDocuments.CreateRegulatoryDocument | src/controllers/regulatoryDocumentController.js:5-85 | a live document with the title gets a new version (200); otherwise a new document (201), unless the title or the content is rejected (500) |
| RegulatoryDocuments.UpdateRegulatoryDocument | src/controllers/regulatoryDocumentController.js:174-234 | 404 for an unknown id (a deleted document is not excluded); then the add-version rules |
| RegulatoryDocuments.DeleteRegulatoryDocument | src/controllers/regulatoryDocumentController.js:87-116 | 404 for an unknown id; then the delete rules |
| RegulatoryDocuments.RestoreRegulatoryDocument | src/controllers/regulatoryDocumentController.js:387-418 | 404 for an unknown id; then the restore rules |
| RegulatoryDocuments.DeleteRegulatoryDocumentVersion | src/controllers/regulatoryDocumentController.js:118-172 | 404 for an unknown id; then the version-deletion rules |
| RegulatoryDocuments.RestoreRegulatoryDocumentVersion | src/controllers/regulatoryDocumentController.js:420-471 | 404 for an unknown id; then the version-restore rules |
| CompanyProfile.Spread | src/controllers/companyProfileController.js:105-108 | the sent keys win, the other old keys are kept, no other key appears, and with nothing sent the object is unchanged |
| CompanyProfile.NewCompany | src/controllers/companyProfileController.js:40-48 | a new record is active and carries the sent name, e-mail, logo and slogan; its nested objects are the sent ones, or empty when not sent |
| CompanyProfile.Updated | src/controllers/companyProfileController.js:102-108 | truthy scalars overwrite; nested objects merge with the sent keys winning; `activo` is untouched |
| CompanyProfile.UpdateIsIdempotent | src/controllers/companyProfileController.js:102-108 | sending the same update twice changes nothing the second time |
| CompanyProfile.EmptyUpdateIsIdentity | src/controllers/companyProfileController.js:102-108 | an empty update leaves the record unchanged |
| CompanyProfile.ActiveCompany | src/controllers/companyProfileController.js:129 | the first active record; nothing is found exactly when no record is active |
| CompanyProfile.GetCompanyInfo | src/controllers/companyProfileController.js:126-140 | 200 with the first active record of the store, or 404 exactly when none is active |
| CompanyProfile.CreateCompany | src/controllers/companyProfileController.js:6-63 | 400 for an invalid body or when any record exists, active or not; 500 for an empty name; otherwise 201 with the single new record, so there is never a second record |
| CompanyProfile.UpdateCompanyInfo | src/controllers/companyProfileController.js:67-123 | 400 for an invalid body; 404 with no change when there is no record; otherwise the first record is updated |
| CompanyProfile.DeleteCompany | src/controllers/companyProfileController.js:143-165 | 404 without a record; otherwise the first record's `activo` becomes false, whatever it was |
| CompanyProfile.RestoreCompany | src/controllers/companyProfileController.js:167-188 | the first inactive record becomes active; 404 when none is inactive |
| CompanyProfile.DeleteThenRestore | src/controllers/companyProfileController.js:146-178 | after deleting the single record it is not served, and it is the first inactive record that restoring picks |
| CompanyProfile.DeleteThenRestoreRoundTrip | src/controllers/companyProfileController.js:146-178 | deleting and then restoring a store whose first record is active answers 200 twice and leaves exactly the records that were there |
| EmailTemplates.ActiveById | src/controllers/emailTemplateController.js:68-70 | lookup by id treats an inactive template as not found |
| EmailTemplates.GetAllEmailTemplates | src/controllers/emailTemplateController.js:52-61 | exactly the active templates are listed |
| EmailTemplates.GetEmailTemplateById | src/controllers/emailTemplateController.js:63-79 | the template found is active and has the id; otherwise 404 |
| EmailTemplates.Patched | src/controllers/emailTemplateController.js:103-109 | truthy fields overwrite and the updater is always recorded; id, `activo` and creator are kept |
| EmailTemplates.PatchIsIdempotent | src/controllers/emailTemplateController.js:103-109 | the same update applied twice equals applying it once |
| EmailTemplates.CreateEmailTemplate | src/controllers/emailTemplateController.js:6-50 | 400 for an invalid body or a name any template has; 500 without a requesting user id; otherwise 201 with an active template created by the requester; names stay unique |
| EmailTemplates.UpdateEmailTemplate | src/controllers/emailTemplateController.js:81-120 | 404 for an unknown or inactive template; 500 when the new name belongs to another template; otherwise 200 with the patch saved; names stay unique |
| EmailTemplates.DeleteEmailTemplate | src/controllers/emailTemplateController.js:122-145 | 404 for an unknown or inactive template; otherwise it is deactivated and the deleter recorded |
| EmailTemplates.DeletedTemplateIsGone | src/controllers/emailTemplateController.js:129-134 | after a deletion the template is not found, so a second delete gives 404 |
| EmailTypes.GetEmailTypeById | src/controllers/emailTypeController.js:57-75 | found whatever its `activo`; 404 exactly when no type has the id |
| EmailTypes.GetAllEmailTypes | src/controllers/emailTypeController.js:77-89 | exactly the active types are listed |
| EmailTypes.Overwritten | src/controllers/emailTypeController.js:97-101 | the fields the body carries overwrite; id, `activo` and creator are kept |
| EmailTypes.LaterOverwriteWins | src/controllers/emailTypeController.js:97-101 | a later update that carries every field wins over an earlier one |
| EmailTypes.CreateEmailType | src/controllers/emailTypeController.js:6-55 | 400 for an invalid body, then 401 without a user id, then 400 for a taken code; otherwise 201 with an active type created by the requester; codes stay unique |
| EmailTypes.UpdateEmailType | src/controllers/emailTypeController.js:91-116 | 404 for an unknown id, active or not; 500 when the code belongs to another type; otherwise 200; codes stay unique |
| EmailTypes.DeleteEmailType | src/controllers/emailTypeController.js:117-141 | 404 for an unknown id; otherwise `activo` becomes false, whatever it was |
| EmailTypes.DeletedTypeIsHiddenNotGone | src/controllers/emailTypeController.js:61-79 | a deleted type is still found by id but no longer listed |

## Left out

- Hashing is modelled as `Bcrypt(salt, password)` with no collisions. Salts and bcrypt's cost are inputs.
- JWT signing and verification are not modelled. Tokens are opaque strings; a verification outcome is an input (`Valid`, `Expired`, `OtherError`).
- `req.token` is never set by the authentication middleware. The session-expiry gate and logout take the token as a parameter.
- The MFA check is a stub that accepts every code, and is modelled as such.
- The password-change notifier is called but is not defined in the auth service. Its success is the `notifierOk` input; a failure after the save gives 500.
- The express-validator chains of the handlers are one `valid` input each. The sanitisers' output is what the model receives. `isISO8601` is a predicate parameter of `DocumentValidator.FechaErrors`.
- Mongoose `required` on a string rejects "". The save then throws and the handler answers 500 with nothing saved. Unique indexes are modelled the same way (templates' `nombre`, types' `codigo`). Other schema validation and casting are not modelled.
- Calendar arithmetic (`setMonth`, `setDate`) is not modelled. "Six months ago" is the `sixMonthsAgo` parameter.
- Response bodies, messages and JSON shaping are not modelled; `getProfile` only selects and shapes fields. Timestamps are modelled only where they decide something: creation dates pick the promoted version in `DeleteVersion`, and `updatedAt` picks the document in `GetVersionHistory`. A malformed id passed to `findById` (a cast error, 500) is not modelled.
- Logging, CORS, CSRF, rate limiting, cookies and redirects are not modelled. So are SMTP, Cloudinary, the database connection and startup.
- Concurrency is not modelled. Handlers run one at a time, so the find-then-save race in `handleFailedAttempt` is absent.
- MongoDB leaves the order of `$group` output unspecified. `IncidentUtils.Group` emits groups in order of first appearance, and `$sort` is stable. `$lookup` assumes user ids are unique.
- RegulatoryDocuments.AddVersion: version strings are the "N.0" labels the code itself writes. Stored versions whose label is non-numeric or fractional are not modelled.
- EmailTypes.UpdateEmailType: keys that the body leaves out (undefined) are treated as not sent. The body's `actualizado_por` is dropped because the schema has no such field.
- The store classes model MongoDB's ids as a counter `nextId`. Ids of different collections never collide.
- A failed-login lock sets `requiere_cambio`, not the user's `estado`, and has no expiry.
- Sessions are neither capped nor revoked on a password change.
- There is no OTP logic.
- AuthController.Register: `mfa_activado` is a JSON boolean. The strings "true", "false", "1" and "0" also pass `isBoolean` and reach the account as strings (src/controllers/authController.js:21, 67-68), so "false" gives `mfa_tipo` 'TOTP' while Mongoose casts `enabled` to false; this is not modelled.

## Findings

| source | as written | input that shows it | evidently intended | confidence | as-written member | corrected member |
|---|---|---|---|---|---|---|
| src/controllers/regulatoryDocumentController.js:368-378 | the response object uses `id:_id`, and `_id` is not defined, so the handler throws and answers 500 | any id of a stored document | 200 with the document | high; not executed | RegulatoryDocuments.GetDocumentByIdAsWritten, RegulatoryDocuments.StoredDocumentIsNotServed | RegulatoryDocuments.GetDocumentById |
