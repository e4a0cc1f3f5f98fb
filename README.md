# Intranet API core — a Dafny model

This project models the access-control and account core of the intranet
REST backend (`hexagonal-go`). It covers five parts:

- **Authorization middleware.** It maps a request's route to a resource key
  and loads the caller's access level. It then allows the request only
  when some grant of that level covers the key: Read for `GET`, Write for
  `POST`/`PUT`/`DELETE`. Otherwise it answers 403, with code "01" when the
  level cannot be loaded and "02" when no grant covers the request.
- **Basic-Auth guard.** It checks one configured username and password,
  counts failed attempts per client IP and locks an IP out for a fixed
  time once the count reaches the threshold.
- **Session tokens (JWT).** A token carries the user's id, email, level
  and token field. It is signed with HS256 and expires after 72 hours.
- **Users.** The GORM repository (create, save, read, paginate,
  soft-delete, login by SHA-256 password hash) and the user use case on
  top of it, which hashes passwords.
- **Other pieces.** The notification service, which broadcasts to named
  notifiers, and the REST handlers for users, levels, forms and menu trees.

Files:

| file | module | contents |
|---|---|---|
| `wrappers.dfy` | `Wrappers` | `Option`, `Result` and `Outcome` (Go's `error` return) |
| `go_strings.dfy` | `GoStrings` | Go's `strings.TrimPrefix`, `strings.Split`, `strconv.Atoi` and `strconv.Itoa` |
| `domain.dfy` | `Domain` | users, levels, forms, grants, menu entries, token claims |
| `authorization.dfy` | `Authorization` | the authorization middleware and the seeded guest level |
| `basic_auth.dfy` | `BasicAuthLockout` | the Basic-Auth guard as a class holding the two per-IP maps |
| `jwt.dfy` | `Jwt` | token generation, parsing and the current-user helper |
| `user_repository.dfy` | `UserStore` | the `users` table with GORM semantics, and the repository class over it |
| `user_usecase.dfy` | `UserAccounts` | the user use case class and password properties |
| `notification_service.dfy` | `Notifications` | the notifier registry class and its broadcast loop |
| `http_api.dfy` | `HttpApi` | the handler shapes shared by all four handlers |
| `user_handler.dfy` | `UserHandler` | the user-specific endpoints |

Several things are parameters rather than computed:

- **Hashing and signing.** SHA-256 (as lower-case hex text), bcrypt and the
  HS256 MAC are function parameters. No property depends on how they
  compute.
- **Time.** Time is an integer number of seconds passed in as `now`.
- **Other repositories.** Repositories other than the user table (the
  level lookup, and the level, form and menu use cases) are function
  parameters of the code that calls them.

The model keeps these semantics of the ORM:

- Deleting a user is a soft delete. The row stays in the table and keeps
  its unique email and username.
- `First` finds live rows only.
- `Save` is an upsert by primary key, and it brings a soft-deleted row
  back to life.
- `Delete` with a zero primary key fails ("WHERE conditions required").
- `Limit` below zero means no limit, and an `Offset` that is not positive
  is left out of the query.

The four handler files repeat the same four shapes, and `HttpApi` states
each shape once. The table cites one handler for each shape. The others
are:

- paging: interfaces/api/level_handler.go:59-79, form_handler.go:82-102 and menu_tree_handler.go:56-76;
- listing: form_handler.go:61-68 and menu_tree_handler.go:36-42;
- create-or-update: form_handler.go:38-50 and menu_tree_handler.go:89-101;
- delete: form_handler.go:115-127, menu_tree_handler.go:114-127 and user_handler.go:130-142.

## Model

| member | source | states |
|---|---|---|
| GoStrings.TrimPrefix | middleware/authorization.go:29 | removing "/" + prefix + "/" gives back the rest of the route when the route starts with it, and leaves the route as it is otherwise |
| GoStrings.JoinSplit | middleware/authorization.go:30 | splitting on '/' (or '\|') loses nothing: joining the pieces with the separator gives back the string |
| GoStrings.FirstPiece | middleware/authorization.go:30-31 | the first piece of a split is a prefix without the separator, followed by the end of the string or the separator |
| GoStrings.AtoiItoa | interfaces/api/user_handler.go:98 | every 64-bit integer written in decimal parses back to itself |
| Authorization.ResourceKey | middleware/authorization.go:28-31 | the resource key is the part of the route after the API prefix, up to the next '/' |
| Authorization.Matches | middleware/authorization.go:44-46 | a PathAPI matches a key only through its first or second '\|'-alias; a match needs a '\|' in the PathAPI and a key without '\|' |
| Authorization.KeyUnderPrefix | middleware/authorization.go:29-31 | under the prefix, the key is exactly the next segment, whether more of the path follows or not |
| Authorization.KeyOutsidePrefix | middleware/authorization.go:29-31 | a route outside the prefix yields the empty key |
| Authorization.HasAccess | middleware/authorization.go:39-55 | the privilege scan returns true exactly when some grant matches the key and covers the verb |
| Authorization.Decide | middleware/authorization.go:33-59 | a level that cannot be loaded gives "01"; otherwise allowed exactly when some grant covers the request, else "02" |
| Authorization.Authorize | middleware/authorization.go:21-64 | allowed requests reach the handler once and return its result; refused ones get 403 with "01 - Access denied" or "02 - Access denied" and never reach it |
| Authorization.SingleAliasNeverMatches | middleware/authorization.go:44-46 | a form whose PathAPI has no '\|' never matches any key |
| Authorization.TwoAliasesMatch | middleware/authorization.go:44-46 | with aliases `a\|b` (and anything after a second '\|'), a key matches exactly when it is `a` or `b` |
| Authorization.UnknownLevelDenied | middleware/authorization.go:34-37 | a caller whose level cannot be loaded is refused with "01" whatever the route and verb |
| Authorization.GetNeedsRead | middleware/authorization.go:47-49 | a GET is allowed exactly when some matching grant has Read set |
| Authorization.WriteMethodsNeedWrite | middleware/authorization.go:50-52 | POST, PUT and DELETE are allowed exactly when some matching grant has Write set |
| Authorization.OtherMethodsDenied | middleware/authorization.go:47-59 | any other verb is refused with "02" once the level is loaded |
| Authorization.DecisionIgnoresOrder | middleware/authorization.go:43-55 | the decision depends only on which grants the level holds, not on their order or repetition |
| Authorization.MoreGrantsKeepAllow | middleware/authorization.go:43-55 | adding grants never turns an allowed request into a refused one |
| Authorization.QualifyingGrantAllows | middleware/authorization.go:43-61 | a grant that matches the key and covers the verb lets the request through |
| Authorization.ReadOnlyLevelRefusesWrites | middleware/authorization.go:50-59 | a level without any Write flag is refused every POST, PUT and DELETE with "02" |
| Authorization.UsersFormMatches | seeder/seed.go:51 | the seeded users form ("user\|users") matches the key "users" |
| Authorization.GuestMayListUsers | seeder/seed.go:165-166 | the seeded read-only level 3 may GET `/api/v1/users/...` |
| Authorization.GuestMayNotWriteUsers | seeder/seed.go:165-166 | the seeded read-only level 3 is refused any POST with "02" |
| Authorization.SingleAliasGrantsUseless | seeder/seed.go:84-111 | grants on single-alias forms (smtp-config, email-notifications, push-notification) never allow anything, even with every flag set |
| BasicAuthLockout.AuthMiddleware.constructor | middleware/auth.go:22-31 | a new guard holds its settings and remembers no failure and no lockout |
| BasicAuthLockout.Attempt | middleware/auth.go:39-58 | an attempt is accepted exactly when its address is not locked out and the credentials are the configured ones; acceptance leaves no failure count and no lockout for that address |
| BasicAuthLockout.AuthMiddleware.BasicAuth | middleware/auth.go:33-60 | one validation updates the two per-IP maps as the attempt transition says and returns its `(bool, error)` pair |
| BasicAuthLockout.LockoutRefusesEverything | middleware/auth.go:39-42 | while an IP is locked out, every attempt from it gets 429, correct credentials included, and nothing changes |
| BasicAuthLockout.CorrectCredentialsAccepted | middleware/auth.go:43-50 | correct credentials outside a lockout are accepted and clear the IP's counter and any expired lockout |
| BasicAuthLockout.WrongCredentialsCounted | middleware/auth.go:52-58 | a wrong attempt adds one to the IP's counter; reaching the maximum locks the IP until now + duration with 429, below it the attempt is rejected |
| BasicAuthLockout.OtherAddressesUntouched | middleware/auth.go:39-58 | an attempt changes only its own IP's entries |
| BasicAuthLockout.AttemptKeepsConsistent | middleware/auth.go:39-58 | counters stay between 1 and the threshold, and an IP has a lockout exactly when its counter reached the threshold |
| BasicAuthLockout.WrongTriesUpToThreshold | middleware/auth.go:52-56 | wrong attempts that bring the counter to the threshold are rejected until the last, which locks the IP |
| BasicAuthLockout.ThresholdFailuresLockOut | middleware/auth.go:52-56 | from a fresh guard, `maxFailedAttempts` wrong attempts from one IP end in 429 and a lockout |
| Jwt.ClaimFor | helpers/jwt_helpers.go:18-30 | the claim carries the user's id, email, token and level, the level again as Admin, the issuer, and an expiry 72 hours ahead |
| Jwt.GenerateJWT | helpers/jwt_helpers.go:17-34 | a token is produced exactly when signing succeeds; it carries the user's claim and a signature that verifies with the secret; a signing error is returned as is |
| Jwt.Parse | helpers/test/jwt_helpers_test.go:62-64 | a token reads back exactly when its signature verifies with the secret and it has not expired |
| Jwt.GetCurrentUser | helpers/jwt_helpers.go:11-15 | the current user of a token issued for a user, at any time, is that user's id |
| Jwt.IssuedTokenParses | helpers/test/jwt_helpers_test.go:62-77 | a token just issued reads back with the user's id, email, token, level, admin, issuer and a 72-hour expiry |
| Jwt.IssuedTokenExpires | helpers/jwt_helpers.go:19 | from the expiry instant on, the issued token is refused as expired |
| Jwt.CurrentUserOfIssuedToken | helpers/jwt_helpers.go:11-15 | the current user of a request carrying an issued token is that user's id |
| UserStore.Live | infrastructure/db/user_repository.go:45-51 | the live users are exactly the users of the rows not soft-deleted |
| UserStore.FirstLive | infrastructure/db/user_repository.go:29-43 | a lookup finds a live row satisfying the condition, or fails with "record not found" exactly when none does |
| UserStore.IndexOfID | infrastructure/db/user_repository.go:25-27 | the row with a primary key is located, or none has it |
| UserStore.MarkDeleted | infrastructure/db/user_repository.go:67-69 | soft delete keeps every row and marks exactly those with the id as deleted |
| UserStore.Window | infrastructure/db/user_repository.go:59-60 | a page holds at most `pageSize` rows and is the run of rows starting at (page-1)·pageSize |
| UserStore.UserRepository.constructor | infrastructure/db/user_repository.go:17-19 | a new repository starts from an empty, well-formed table |
| UserStore.UserRepository.Create | infrastructure/db/user_repository.go:21-23 | insert with auto-increment id, refused on a duplicate id, email or username; the table stays well formed |
| UserStore.UserRepository.Update | infrastructure/db/user_repository.go:25-27 | upsert by primary key; the table stays well formed |
| UserStore.UserRepository.GetByID | infrastructure/db/user_repository.go:29-35 | returns a live user with that id, or "record not found" exactly when there is none |
| UserStore.UserRepository.GetByEmail | infrastructure/db/user_repository.go:37-43 | returns a live user with that email, or "record not found" exactly when there is none |
| UserStore.UserRepository.GetAll | infrastructure/db/user_repository.go:45-51 | returns exactly the live users |
| UserStore.UserRepository.Paginate | infrastructure/db/user_repository.go:53-65 | returns one page of the live users and the count of live users |
| UserStore.UserRepository.Delete | infrastructure/db/user_repository.go:67-69 | soft-deletes the user, or fails without a primary key; the table stays well formed |
| UserStore.UserRepository.Login | infrastructure/db/user_repository.go:71-91 | an unknown email fails with "invalid email or password"; success needs a live user with the email whose stored hash is the password's; other errors come from signing |
| UserStore.InsertKeepsValid | infrastructure/db/user_repository.go:21-23 | create keeps ids positive and below the next id, and ids, emails and usernames unique |
| UserStore.SaveKeepsValid | infrastructure/db/user_repository.go:25-27 | save keeps the same table integrity |
| UserStore.RemoveKeepsValid | infrastructure/db/user_repository.go:67-69 | delete keeps the same table integrity |
| UserStore.FindByIDFindsLiveUser | infrastructure/db/user_repository.go:29-35 | looking up the id of a live user finds exactly that user |
| UserStore.CreateThenGetByID | infrastructure/db/tests/user_repository_test.go:40-47 | a created user gets a nonzero id (its own when it had one) and is found under it with its username and email |
| UserStore.DeleteThenGetByID | infrastructure/db/tests/user_repository_test.go:132-136 | after delete, lookup by id fails with "record not found" although the row is still stored |
| UserStore.DeletedEmailStaysTaken | infrastructure/db/user_repository.go:67-69 | a deleted user's email stays taken: creating another user with it fails |
| UserStore.WindowSlice | infrastructure/db/user_repository.go:59-60 | for positive sizes, a page is the slice from (page-1)·pageSize to page·pageSize, clipped to the table |
| UserStore.PagesReadInOrder | infrastructure/db/user_repository.go:53-65 | consecutive pages read the table in order, with no gaps and no repeats |
| UserStore.PagesCoverTable | infrastructure/db/user_repository.go:53-65 | enough pages together give back every live user |
| UserStore.FirstPageOfTwentyFive | infrastructure/db/tests/user_repository_test.go:102-115 | with 25 live users, page 1 of 10 has the first ten users and the total is 25 |
| UserStore.AllLive | infrastructure/db/user_repository.go:57 | with no row deleted, every row counts towards the total |
| UserStore.PageBeyondEndIsEmpty | infrastructure/db/user_repository.go:59-60 | a page starting past the last live user is empty |
| UserStore.LoginSucceedsIff | infrastructure/db/user_repository.go:71-91 | login succeeds exactly when a live user has that email, the password's hash is the stored one and the token can be signed |
| UserStore.Wrap64 | infrastructure/db/user_repository.go:59 | 64-bit two's-complement wrap-around: the value is in range, unchanged when already in range, and congruent modulo 2^64 |
| UserStore.WindowAsWritten | infrastructure/db/user_repository.go:59-60 | the page the code fetches equals the exact page whenever the offset product fits in 64 bits |
| UserStore.HugePageWrapsToFirstPage | infrastructure/db/user_repository.go:59-60 | page 2^58+1 of size 50 should be empty but the code returns the first 50 users |
| UserAccounts.UserUseCase.constructor | usecase/user_usecase.go:15-19 | the use case holds the repository it is given |
| UserAccounts.UserUseCase.CreateUser | usecase/user_usecase.go:21-34 | a bcrypt failure is returned without touching the table; otherwise the user is created with the bcrypt hash as its password |
| UserAccounts.UserUseCase.UpdateUser | usecase/user_usecase.go:36-48 | a non-empty password is replaced by the hash of "1234admin"; an empty one keeps the stored password, or the lookup error is returned; then the user is saved |
| UserAccounts.UserUseCase.GetUserByID | usecase/user_usecase.go:50-52 | the repository's answer: a live user with that id |
| UserAccounts.UserUseCase.GetUserByEmail | usecase/user_usecase.go:54-56 | the repository's answer: a live user with that email |
| UserAccounts.UserUseCase.GetAllUsers | usecase/user_usecase.go:58-60 | the live users |
| UserAccounts.UserUseCase.PaginateUsers | usecase/user_usecase.go:62-64 | the repository's page and total |
| UserAccounts.UserUseCase.DeleteUser | usecase/user_usecase.go:66-68 | the repository's soft delete; the table stays well formed |
| UserAccounts.UserUseCase.Login | usecase/user_usecase.go:70-72 | the repository's login |
| UserAccounts.FindByEmailFindsLiveUser | infrastructure/db/user_repository.go:37-43 | looking up the email of a live user finds exactly that user |
| UserAccounts.CreatedUserFoundByEmail | infrastructure/db/user_repository.go:21-23 | after a create, the stored user is the one found under its email |
| UserAccounts.BcryptCreatedUserCannotLogIn | usecase/user_usecase.go:22-27 | a user created with password p can never log in with p |
| UserAccounts.LoginHashCreatedUserCanLogIn | infrastructure/db/user_repository.go:77-81 | storing the login hash instead, the new user logs in with the password it was created with |
| UserAccounts.SavedUserFoundByID | infrastructure/db/user_repository.go:25-27 | a saved user is found by its id afterwards, with the saved columns |
| UserAccounts.UpdateWithPasswordResetsToDefault | usecase/user_usecase.go:37-39 | after an update that carries a password, the user logs in with "1234admin" whatever password was sent |
| UserAccounts.UpdateWithoutPasswordKeepsIt | usecase/user_usecase.go:40-45 | an update without a password keeps the stored password |
| UserAccounts.UpdateUnknownUserFails | usecase/user_usecase.go:41-44 | an update without a password for an unknown id changes nothing and fails with "record not found" |
| Notifications.NotificationService.constructor | service/notification_service.go:12-16 | a new service has no notifiers |
| Notifications.NotificationService.RegisterNotifier | service/notification_service.go:18-20 | registering binds the name to the notifier, replacing any earlier one |
| Notifications.NotificationService.Broadcast | service/notification_service.go:22-31 | the loop returns the broadcast's outcome and calls exactly the notifiers the broadcast reaches |
| Notifications.NotificationService.SendNotification | service/notification_service.go:22-31 | a broadcast of a text message |
| Notifications.NotificationService.SendNotificationWithAttachments | service/notification_service.go:33-42 | a broadcast of attachments |
| Notifications.NotificationService.SendNotificationWithTemplate | service/notification_service.go:44-53 | a broadcast of a template and its data |
| Notifications.Registered | service/notification_service.go:24 | the registered names of a list are exactly the listed names that have a notifier |
| Notifications.BroadcastSucceedsIff | service/notification_service.go:22-31 | a broadcast succeeds exactly when every registered notifier in the list succeeds, and then it calls all of them in order |
| Notifications.FailureStopsBroadcast | service/notification_service.go:25-27 | a failed broadcast returns the error of the last notifier it called, and every earlier one succeeded |
| Notifications.UnregisteredNamesIgnored | service/notification_service.go:24 | names nobody registered do not change a broadcast's outcome |
| Notifications.UnregisteredNamesNotCalled | service/notification_service.go:24 | names nobody registered do not change which notifiers are called |
| Notifications.NotificationService.RegisterReplaces | service/notification_service.go:18-20 | two registrations under one name leave the map as the old one with only the later notifier under that name |
| HttpApi.PageNumber | interfaces/api/user_handler.go:98-101 | the page parameter is accepted exactly when it parses as an integer of at least one |
| HttpApi.RowsPerPage | interfaces/api/user_handler.go:103-106 | the page size is the parsed value when it is at least one, and 50 otherwise |
| HttpApi.Paginate | interfaces/api/user_handler.go:97-117 | a bad page number gives 400 "Invalid page number"; otherwise 200 with the use case's items and total, or 500 with its error |
| HttpApi.List | interfaces/api/level_handler.go:39-45 | 200 with every entity, or 500 with the use case's error |
| HttpApi.CreateOrUpdate | interfaces/api/level_handler.go:92-104 | a body that does not bind gives 400; otherwise 201 with the saved entity, or 500 with the error |
| HttpApi.Delete | interfaces/api/level_handler.go:117-129 | a body that does not bind gives 400; otherwise 200 echoing the entity, or 500 with the error |
| HttpApi.PageNumberRoundTrip | interfaces/api/user_handler.go:98-101 | every page number from 1 up, written in decimal, is read back as itself |
| HttpApi.NonPositivePageRefused | interfaces/api/user_handler.go:99-100 | zero and negative page numbers get 400 |
| HttpApi.RowsRoundTrip | interfaces/api/user_handler.go:103-106 | a positive page size is used as sent; zero and negative ones fall back to 50 |
| HttpApi.EmptyRowsDefault | integration_tests/integration_menu_tree_handler_test.go:106 | an empty `rows=` means 50 rows |
| HttpApi.BadPageSkipsUseCase | interfaces/api/user_handler.go:98-101 | with a bad page number the use case is not consulted and the answer is 400 |
| HttpApi.PageRequestReachesUseCase | interfaces/api/user_handler.go:108-116 | a valid request reaches the use case with the page and size the client wrote and returns its result with 200 |
| HttpApi.UnboundBodySkipsUseCase | interfaces/api/level_handler.go:93-96 | a body that does not bind is refused with 400 before the use case runs |
| HttpApi.PageOneOfTwoRows | interfaces/api/tests/form_handler_test.go:84-96 | `/forms/1?rows=2` asks for page 1 of 2 rows |
| HttpApi.PageOneDefaultRows | integration_tests/integration_menu_tree_handler_test.go:106-119 | `/expanses-menus/1?rows=` asks for page 1 of 50 rows |
| UserHandler.CreateOrUpdateUser | interfaces/api/user_handler.go:43-62 | a body with a nonzero id is an update and a zero id a create; either way 201 with the stored user, or 500 |
| UserHandler.GetUserData | interfaces/api/user_handler.go:74-83 | 200 with the user whose id the token carries, or 500 with the lookup error |
| UserHandler.Login | interfaces/api/user_handler.go:155-172 | 400 on a bad body; 401 with the use case's error; otherwise 200 with the status and the token |
| UserHandler.IdSelectsUseCase | interfaces/api/user_handler.go:49-59 | the id in the body alone decides which use case runs |
| UserHandler.CreateIntoEmptyTable | interfaces/api/tests/user_handler_test.go:40-68 | a new user posted to an empty table comes back with 201, id 1, its username and email, and the hash as password |
| UserHandler.SignedInUserGetsOwnData | interfaces/api/tests/user_handler_test.go:70-111 | a signed-in, live user reads back their own record with 200 |
| UserHandler.DeletedUserGetsNoData | interfaces/api/user_handler.go:77-80 | a signed-in user deleted since gets 500 "record not found" |
| UserHandler.LoginAnswer | interfaces/api/user_handler.go:161-171 | against the user table, login answers 200 exactly when the credentials match a live user and the token can be signed, and 401 otherwise |
| UserHandler.DeleteEchoesUser | interfaces/api/user_handler.go:130-142 | deleting a user through the endpoint answers 200 echoing the request's user, and the user can no longer be read |
| UserHandler.LoginDoesNotRevealEmails | interfaces/api/user_handler.go:161-164 | an unknown email and a wrong password get the same 401 answer |

## Left out

- Crypto. SHA-256, bcrypt and HS256 are function parameters. Their own properties (collision resistance, the bcrypt cost factor) are not modelled.
- Token text. The JSON/base64url form of a token is not modelled: a token is its claim and signature. The `"JWT_SECRET"` environment variable becomes the `secret` parameter.
- Token parsing. Parsing belongs to the JWT middleware in front of the handlers. `Jwt.Parse` states only the signature and expiry checks; other jwt-library checks (algorithm, not-before) are not modelled.
- Echo plumbing. Request binding (JSON decoding) becomes a `Result` input. Echo's routing, contexts and response writing are not modelled. Basic-Auth header parsing and the 401 that echo sends for `(false, nil)` belong to echo, not to this code.
- Wall clock. `time.Now()` becomes the `now` parameter. `BasicAuth` reads the clock twice; the model uses one instant for both reads.
- Concurrency. The mutex in `AuthMiddleware` serialises validations; the model takes them one at a time. Concurrent access to the notifier map is not modelled either.
- Database errors. Connection failures and the error of `Find` in `Paginate` are not modelled: the in-memory table never fails there. `Count`'s error, which the code ignores, cannot arise in the model either.
- Preloading. `GetByID` preloads the user's level, its grants and their forms. The model returns the user row only.
- Bookkeeping columns. `CreatedAt`, `UpdatedAt` and `DeletedAt` are not carried; soft deletion is a flag on the row. The row order of `Find` without `ORDER BY` is taken to be insertion order.
- Other repositories and use cases. The level, form, menu-tree and level-privilege repositories and use cases are not part of this model. The handlers receive their results as parameters, and the authorization middleware receives the level lookup as a function.
- Notifier adapters. The e-mail and Slack notifiers are not part of this model; a notifier is three functions returning success or an error. Template data (`interface{}`) is carried as text.
- Setup code. Configuration loading, the seeder, migrations and the router wiring are not modelled. The seeded users form and level 3 appear as constants.
- Integer widths. Ids (`uint`) are unbounded naturals. `Atoi` keeps the 64-bit range check.
- Jwt.ClaimFor: the claim has no issued-at time. The generator does not set one (helpers/jwt_helpers.go:18-21).
- Notifications.NotificationService.Broadcast: the `called` result is not in the Go signature. It records which notifiers were invoked, which in the source is a side effect.
- UserAccounts.UserUseCase.CreateUser: models the code as written, bcrypt hash included; see Findings.
- UserStore.UserRepository.Paginate: uses the exact offset; the 64-bit wrap-around of the source is modelled separately; see Findings.

## Findings

| source | as written | input that shows it | evidently intended | confidence | as-written member | corrected member |
|---|---|---|---|---|---|---|
| infrastructure/db/user_repository.go:59 | `offset := (page - 1) * pageSize` is computed in 64-bit `int` and wraps around; the ORM drops a negative offset | `GET /users/288230376151711745` (page 2^58+1, default 50 rows): the offset wraps to -4035225266123964416, which the ORM leaves out, so the first 50 users come back | a page past the end of the table is empty | high (not executed) | UserStore.HugePageWrapsToFirstPage | UserStore.Window |
| usecase/user_usecase.go:22-27 | `CreateUser` stores the bcrypt hash of the password, but `Login` (infrastructure/db/user_repository.go:77-80) compares the hex SHA-256 of the password with the stored value | create a user with password "password", then log in with "password": the stored "$2a$…" hash never equals 64 hex digits, so the answer is 401 "invalid email or password" | a user created with a password can log in with it, so creation stores the same hash that login compares (SHA-256 hex, as the seeder and `UpdateUser` do) | high (not executed) | UserAccounts.BcryptCreatedUserCannotLogIn | UserAccounts.LoginHashCreatedUserCanLogIn |
