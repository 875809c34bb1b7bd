# RHoK server: accounts and sessions

A Dafny model of the account and session bookkeeping behind two web endpoints
of the RHoK server: `POST users`, the create-or-recognise flow of
`UserManagement`, and `POST authenticate`, the password check and session
replacement of `AuthenticationWebService`. The model also covers the user
entity (field defaults, and the `@NotNull`/`@Pattern` constraints on email
and password) and the user session entity (its fields and its validity rule).

The Hibernate store is an in-memory `Store.Database` with two tables: a
`seq<User>` and a `seq<UserSession>`. Each service method is a Dafny method
that reads or rewrites those tables. Its `ensures` ties the answer and the
new table to a pure effect function of the old table and the inputs:
`CreateUserEffect`, `LogoutEffect`, `LoginEffect` or `AuthenticateEffect`.
What the services promise is proved as lemmas about those functions. The
clock (`new Date()`) and the freshly generated session key
(`UserSession.generateKey()`) are parameters `now` and `freshKey`.

Java exceptions are the `Threw` case of `Outcomes.Outcome`. A Java `null` is
`None`. Times are integer milliseconds.

Modules, one per source concern:

- `Outcomes`: Option, and Outcome with its faults `DuplicateUserEmailDetected` and `NullPointer`.
- `Results`: the data holders `Result` and `ValidationResult`.
- `Query`: what an HQL `from T where …` query returns (`IndicesWhere`), and the SQL `like` operator.
- `Patterns`: the two regular expressions of `User.java`. Each is stated twice:
  - as a plain rule (`ValidPassword`, `ValidEmail`);
  - read the way the regular expression matches (`PasswordPatternMatches`, and the automaton `EmailPatternMatches`);
  - with a lemma proving the two readings accept the same strings.
- `Users`: the user record, its defaults, and bean validation of one property.
- `Sessions`: the session record and its validity rule.
- `Store`: the database class and the row invariants it keeps:
  - every stored user has its identifier and a non-null email and password;
  - every session has `startTime <= lastActivity`;
  - session keys are distinct.
- `UserService`: `UserManagement.java`.
- `AuthService`: `AuthenticationWebService.java`.

The code is modelled as written, including behaviour that looks
unintended:

- The user lookup uses `like`, so `%` and `_` in a supplied email are wildcards. `Query.Like` models them.
- A duplicate-email fault from the lookup is logged and dropped:
  - `createUser` then goes on to validate and create;
  - `authenticate` then denies.
- The session scan of `txLogoutExistingSession` filters on the user and on `lastActivity + timeout > now` only. A logged-out but unexpired session therefore still counts. Two such rows make the scan fault.
- `authenticate` drops a scan fault and goes ahead with the login. So a third login within the hour sees the first, logged-out session and the second, live one; the scan faults, the second is not logged out, and the user holds two valid sessions (`LoggedOutSessionDefeatsSingleSession`).
- The success answer of `authenticate` carries the key but leaves the state unset; it is never `GRANTED`.
- `authenticate` with a known email and no password dereferences null. That is `Threw(NullPointer)` here.

## Model

| member | source | states |
|---|---|---|
| Users.NewUser | src/main/java/com/androidmontreal/rhok/server/model/User.java:27-69 | a new user is not archived and not confirmed, its `lastEmailCheck` is its creation time, and every other field is null |
| Users.CheckNotNullPattern | src/main/java/com/androidmontreal/rhok/server/model/User.java:48-50 | a property with `@NotNull` and `@Pattern` has at most one violation: a null value violates only NotNull; a present value violates only Pattern, exactly when it does not match |
| Users.ValidateProperty | src/main/java/com/androidmontreal/rhok/server/model/User.java:48-69 | validating `email` finds no violation exactly when the email is present and valid, and validating `password` likewise; a missing value gives a NotNull violation; a present value that does not match gives a Pattern violation, so at most one violation, on that property; every other property is unconstrained; the user is only read |
| Users.EmailExamples | src/main/java/com/androidmontreal/rhok/server/model/User.java:50 | "a@b.com" is a valid email; "a@b.c", "a@b" and "a..b@c.com" are not |
| Users.OtherEmailExample | src/main/java/com/androidmontreal/rhok/server/model/User.java:50 | "x@y.com" is a valid email |
| Patterns.PasswordPatternMeaning | src/main/java/com/androidmontreal/rhok/server/model/User.java:68 | the password pattern (three lookaheads, then `.{6,20}` over the whole value) accepts exactly the passwords of 6 to 20 characters with no line terminator that contain a digit, a lowercase letter and an uppercase letter |
| Patterns.PasswordExamples | src/main/java/com/androidmontreal/rhok/server/model/User.java:68 | "Abc123" is a valid password and "short" is not |
| Patterns.EmailPatternMeaning | src/main/java/com/androidmontreal/rhok/server/model/User.java:50 | the email pattern, read left to right by an automaton, accepts exactly the strings with dot-separated atoms over `[_A-Za-z0-9-]`, one `@`, and at least two dot-separated alphanumeric labels, the last of them at least two letters |
| Patterns.EmailRunIsClass | src/main/java/com/androidmontreal/rhok/server/model/User.java:50 | after any prefix, the automaton's state is the one that prefix's meaning predicts: where the first `@` is, whether the local part is well formed, and what the domain read so far ends in |
| Patterns.EmailPatternExamples | src/main/java/com/androidmontreal/rhok/server/model/User.java:50 | the automaton accepts "a@b.com" and rejects "a@b.c", "a@b" and "a..b@c.com" |
| Sessions.NewSession | src/main/java/com/androidmontreal/rhok/server/model/UserSession.java:40-57 | a session built with its not-null fields set is not logged out, and its last activity is its start |
| Sessions.SetLoggedOut | src/main/java/com/androidmontreal/rhok/server/model/UserSession.java:103-105 | the setter changes `loggedOut` only; every other field keeps its value |
| Sessions.IsValid | src/main/java/com/androidmontreal/rhok/server/model/UserSession.java:17-21 | a session is valid while it is not logged out and `lastActivity + timeout` is after `now`; its meaning is established by `NewSessionValid`, `LoggedOutIsInvalid` and `InvalidStaysInvalid` |
| Sessions.NewSessionValid | src/main/java/com/androidmontreal/rhok/server/model/UserSession.java:15-23 | a fresh session is well formed, and it is valid at `now` exactly when `now` is before its start plus its timeout |
| Sessions.LoggedOutIsInvalid | src/main/java/com/androidmontreal/rhok/server/model/UserSession.java:20 | a logged-out session is invalid whatever its timeout; logging out twice is logging out once; logging out keeps a session well formed |
| Sessions.InvalidStaysInvalid | src/main/java/com/androidmontreal/rhok/server/model/UserSession.java:17-20 | a session invalid at some time is invalid at every later time |
| Query.IndicesWhere | src/main/java/com/androidmontreal/rhok/server/service/UserManagement.java:76 | the rows a query returns are in the table, satisfy its condition, include every row that does, and come in table order |
| Query.NoneSelected | src/main/java/com/androidmontreal/rhok/server/service/UserManagement.java:76-89 | the query returns no row exactly when no row satisfies the condition |
| Query.SeveralSelected | src/main/java/com/androidmontreal/rhok/server/service/UserManagement.java:76-81 | the query returns more than one row exactly when two distinct rows satisfy the condition |
| Query.OneSelected | src/main/java/com/androidmontreal/rhok/server/service/UserManagement.java:84-86 | when the query returns one row, that row is the only one satisfying the condition |
| Query.Like | src/main/java/com/androidmontreal/rhok/server/service/UserManagement.java:76 | SQL `like`: a match against a pattern with no `%` has the pattern's length; `LikeWithoutWildcardsIsEquality`, `UnderscoreMatchesAnyCharacter` and `PercentMatchesEverything` state what it accepts |
| Query.LikeWithoutWildcardsIsEquality | src/main/java/com/androidmontreal/rhok/server/service/UserManagement.java:76 | `value like pattern` with a pattern free of `%` and `_` holds exactly when the value equals the pattern |
| Query.UnderscoreMatchesAnyCharacter | src/main/java/com/androidmontreal/rhok/server/service/UserManagement.java:76 | an `_` in the email looked up matches any character at its position, so a lookup can find a user whose email differs from the one supplied |
| Query.PercentMatchesEverything | src/main/java/com/androidmontreal/rhok/server/service/UserManagement.java:76 | looking up the email `%` matches every stored email |
| UserService.BuildUser | src/main/java/com/androidmontreal/rhok/server/service/UserManagement.java:169-176 | the built user carries the command's email and password and is otherwise exactly a new user |
| UserService.FindUser | src/main/java/com/androidmontreal/rhok/server/service/UserManagement.java:71-90 | the lookup throws `DuplicateUserEmailDetected` exactly when two users match; it returns the user when exactly one matches, and null exactly when none does |
| UserService.NoSingleMatchFindsNoUser | src/main/java/com/androidmontreal/rhok/server/service/UserManagement.java:208-214 | when no single user matches, the caller is left with no user: null, or the fault it drops |
| UserService.ViolationsToResults | src/main/java/com/androidmontreal/rhok/server/service/UserManagement.java:257-264 | the loop yields one validation result per violation, in order, named after the violated property and carrying its constraint's message |
| UserService.UserManagement.TxSaveUser | src/main/java/com/androidmontreal/rhok/server/service/UserManagement.java:58-63 | saving assigns the next identifier and appends exactly that user; the session table is untouched |
| UserService.UserManagement.TxFindUser | src/main/java/com/androidmontreal/rhok/server/service/UserManagement.java:71-90 | the lookup answers as `FindUser` on the current table and writes nothing |
| UserService.UserManagement.ArchiveUser | src/main/java/com/androidmontreal/rhok/server/service/UserManagement.java:95-101 | always answers FAILURE and changes nothing |
| UserService.UserManagement.InviteUser | src/main/java/com/androidmontreal/rhok/server/service/UserManagement.java:290-296 | always answers FAILURE and changes nothing |
| UserService.UserManagement.CreateUser | src/main/java/com/androidmontreal/rhok/server/service/UserManagement.java:203-278 | the answer and the new user table are those of `CreateUserEffect` on the old table; the session table is untouched; the row invariants are kept |
| UserService.RecogniseEffect | src/main/java/com/androidmontreal/rhok/server/service/UserManagement.java:217-237 | a known user with another password gets EXISTS_BAD_CREDS; with the right password EXISTS_UNCONFIRMED_EMAIL_DUE exactly when unconfirmed and the email check is due, EXISTS_GOOD_CREDS otherwise; never validation results |
| UserService.CreationEffect | src/main/java/com/androidmontreal/rhok/server/service/UserManagement.java:240-277 | USER_CREATED exactly when the email and password are present and valid, with the next identifier, the command's fields and the creation time appended and nothing else changed; otherwise VALIDATION_FAILED with one or two results and the table unchanged; a table of persisted users stays one |
| UserService.CreateUserEffect | src/main/java/com/androidmontreal/rhok/server/service/UserManagement.java:203-278 | the table stays one of persisted users; it is unchanged unless USER_CREATED appends exactly one user; the answer is USER_CREATED or VALIDATION_FAILED exactly when the lookup does not return a user (`NewUserInvalid`, `NewUserCreated` and `ExistingUserWrongPassword` give each branch) |
| UserService.ExistingUserWrongPassword | src/main/java/com/androidmontreal/rhok/server/service/UserManagement.java:217-237 | a known user with another password gets EXISTS_BAD_CREDS and the table is unchanged |
| UserService.ExistingUserRightPassword | src/main/java/com/androidmontreal/rhok/server/service/UserManagement.java:223-231 | a known user with the right password gets EXISTS_UNCONFIRMED_EMAIL_DUE exactly when unconfirmed and more than `UNCONFIRMED_MAX_DAYS` (7, line 49) days, that is 7 × 86 400 000 ms, past the last email check, and EXISTS_GOOD_CREDS otherwise; no validation results; the table is unchanged |
| UserService.ConfirmedUserAlwaysRecognised | src/main/java/com/androidmontreal/rhok/server/service/UserManagement.java:227-231 | a confirmed user with the right password gets EXISTS_GOOD_CREDS however much time has passed |
| UserService.CreationRefused | src/main/java/com/androidmontreal/rhok/server/service/UserManagement.java:240-268 | on the creation path, a request whose email or password breaks a constraint gets VALIDATION_FAILED with the results of exactly the failing fields, each once, a missing field with the NotNull message and a present one with the Pattern message; nothing is stored |
| UserService.CreationSaves | src/main/java/com/androidmontreal/rhok/server/service/UserManagement.java:240-277 | on the creation path, a valid request gets USER_CREATED, the built user is appended with the next identifier, and the row invariants hold |
| UserService.NewUserInvalid | src/main/java/com/androidmontreal/rhok/server/service/UserManagement.java:208-268 | with no single user found, an invalid email or password gets VALIDATION_FAILED, with one result for each violated property, named after it and carrying the NotNull message when the field is missing or the Pattern message when it is present; no user is saved |
| UserService.NewUserCreated | src/main/java/com/androidmontreal/rhok/server/service/UserManagement.java:208-277 | with no single user found and a valid request, exactly one user is appended: the command's email and password, the next identifier, every other field at its default; the answer is USER_CREATED |
| UserService.DuplicateEmailStillCreates | src/main/java/com/androidmontreal/rhok/server/service/UserManagement.java:209-277 | two stored users matching the email do not stop a valid request from creating a third |
| UserService.SignupCreates | src/main/java/com/androidmontreal/rhok/server/service/UserManagement.java:203-278 | on an empty store, "a@b.com" with "Abc123" creates exactly that user |
| UserService.SignupRecognised | src/main/java/com/androidmontreal/rhok/server/service/UserManagement.java:217-237 | the same request afterwards gets EXISTS_GOOD_CREDS; eight days later it gets EXISTS_UNCONFIRMED_EMAIL_DUE; a wrong password gets EXISTS_BAD_CREDS |
| UserService.SignupWeakPasswordRefused | src/main/java/com/androidmontreal/rhok/server/service/UserManagement.java:240-268 | a new email with the password "short" fails validation on the password alone, and nothing is stored |
| UserService.ShortPasswordRefused | src/main/java/com/androidmontreal/rhok/server/service/UserManagement.java:245-268 | the validation of "x@y.com" with "short" yields the single result for the password pattern |
| AuthService.LogoutEffect | src/main/java/com/androidmontreal/rhok/server/service/AuthenticationWebService.java:198-226 | the scan selects the user's unexpired sessions, whether logged out or not. Several selected: it throws and writes nothing. Exactly one: that row gets `loggedOut` true and is returned, and every other row is unchanged. None: it returns null and writes nothing |
| AuthService.LoginEffect | src/main/java/com/androidmontreal/rhok/server/service/AuthenticationWebService.java:177-196 | login appends exactly one session, for the user, under the given key, not logged out, with start and last activity now and a timeout of 3 600 000 ms |
| AuthService.AuthenticationWebService.TxLogin | src/main/java/com/androidmontreal/rhok/server/service/AuthenticationWebService.java:177-196 | the answer and the new session table are those of `LoginEffect`; the user table is untouched; with a fresh key the row invariants are kept |
| AuthService.AuthenticationWebService.TxLogoutExistingSession | src/main/java/com/androidmontreal/rhok/server/service/AuthenticationWebService.java:198-226 | the answer and the new session table are those of `LogoutEffect`, with the one found session updated in place; the user table is untouched |
| AuthService.AuthenticationWebService.Authenticate | src/main/java/com/androidmontreal/rhok/server/service/AuthenticationWebService.java:94-147 | the answer and the new session table are those of `AuthenticateEffect`; the user table is untouched; the row invariants are kept |
| AuthService.AuthenticateEffect | src/main/java/com/androidmontreal/rhok/server/service/AuthenticationWebService.java:94-147 | the answer is DENIED without a key, a null dereference, or the fresh key with the state unset, never GRANTED; a refusal or fault writes nothing; a success comes from the one user matching the email with that password, keeps every earlier session or marks it logged out, and appends one session of that user under the key, starting now (`UnknownUserDenied`, `WrongPasswordDenied`, `MissingPasswordThrows` and `CorrectPasswordLogsIn` give each branch) |
| AuthService.UnknownUserDenied | src/main/java/com/androidmontreal/rhok/server/service/AuthenticationWebService.java:98-116 | an email matching no user, or several users, is denied with no key, and the session table is untouched |
| AuthService.WrongPasswordDenied | src/main/java/com/androidmontreal/rhok/server/service/AuthenticationWebService.java:118-124 | a wrong password is denied with no key, and the session table is untouched |
| AuthService.MissingPasswordThrows | src/main/java/com/androidmontreal/rhok/server/service/AuthenticationWebService.java:119 | a known email with a null password ends in a null dereference, and nothing is written |
| AuthService.CorrectPasswordLogsIn | src/main/java/com/androidmontreal/rhok/server/service/AuthenticationWebService.java:126-146 | the right password gets the new session's key with the state unset; the table becomes the logout scan's table plus exactly one new session of the user |
| AuthService.ScanFaultStillLogsIn | src/main/java/com/androidmontreal/rhok/server/service/AuthenticationWebService.java:128-146 | when the scan faults, the login still proceeds: earlier sessions left as they were, the new one appended |
| AuthService.LoginLeavesSingleValidSession | src/main/java/com/androidmontreal/rhok/server/service/AuthenticationWebService.java:126-141 | with at most one unexpired session before, after a successful authentication the new session is the user's only valid session |
| AuthService.LoggedOutSessionDefeatsSingleSession | src/main/java/com/androidmontreal/rhok/server/service/AuthenticationWebService.java:128-211 | a valid session plus a logged-out but unexpired one make the scan fault, so after login the user holds two valid sessions |
| AuthService.SecondLoginSupersedesFirst | src/main/java/com/androidmontreal/rhok/server/service/AuthenticationWebService.java:126-225 | when the user has no unexpired session at the first login, a second login within the hour marks the first session logged out and leaves the second as the user's only valid session |
| AuthService.LoginWithoutLiveSession | src/main/java/com/androidmontreal/rhok/server/service/AuthenticationWebService.java:126-146 | when the user has no unexpired session, a successful login leaves every earlier session as it was and appends the new one |
| AuthService.NewSessionOnlyScanned | src/main/java/com/androidmontreal/rhok/server/service/AuthenticationWebService.java:201-206 | within the hour after such a login, the next scan selects the new session and nothing else |

## Left out

- The Hibernate session and the `@Transactionnal` interception are not modelled. Each method is one atomic step on the in-memory tables. `txLogoutExistingSession` carries no such annotation yet is treated as part of `authenticate`'s step.
- HQL is modelled only by what its queries select, as `Query.IndicesWhere` over the tables.
- `like` is taken as case-sensitive with no escape character. The database's collation is not part of this model.
- There is no database date arithmetic. The query's `setDate` binds only the date part of `now` at `AuthenticationWebService.java:205`; the model compares with the full `now` in milliseconds.
- `UserManagement.java:224-227` computes `daysElapsed` in double precision. The model takes it as the integer comparison `elapsed > 7 × 86 400 000`; floating-point rounding is not modelled.
- Times and timeouts are unbounded integers. The sum `lastActivity + timeout` is computed by the database inside the HQL query at `AuthenticationWebService.java:203`; its column arithmetic and any overflow there are not modelled.
- `UserSession.generateKey` (a random UUID) and `new Date()` are inputs. `TxLogin` and `Authenticate` require the key to be unused by stored sessions, which stands for the UUID's uniqueness.
- `session.load` in `txLogin` is not modelled. The session holds the user's identifier, not the loaded object.
- Session identifiers are not modelled: they are store-assigned and never read.
- The user identifier comes from `@GeneratedValue(strategy = GenerationType.AUTO)` at `User.java:28`. The model gives the user at position `i` of the table the identifier `i`; the database's actual generator is not modelled.
- `txLogoutExistingSession` and `txLogin` each call `new Date()` (`AuthenticationWebService.java:205` and `:186`). One `now` stands for both, so the model assumes no time passes between the scan and the new session's start.
- `UserManagement.TxSaveUser` requires a non-null email and password. This stands for the bean validation Hibernate runs before an insert; `createUser` only saves after its own validation of the same constraints.
- Violation messages are abstract (`NotNullMessage`, `PatternMessage`). The validator's exact text and the JSR 303 factory are not modelled.
- `createUser` collects violations in a `HashSet`. The model lists email's before password's; the set's iteration order is not specified.
- Logging, JSON serialisation and a null request body are not modelled.
- `forgottenPassword` and `logout` are not modelled. They are unimplemented and return null.
- Launcher.java and RHoKServletConfig.java are not modelled (server bootstrap and wiring). UserStatus.java is not modelled either: nothing uses it.
- The username, first name and last name constraints are commented out in `User.java`, so they have no model.
