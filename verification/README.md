# User service: a verified model

This project models the C++ user and authentication service: its hand-written token codec, the
login lockout and the SMS captchas that share one Redis store, the sessions table behind refresh
tokens, the connection pool, the SQL placeholder builder, user listing and weighted instance
selection. `dafny verify dfyconfig.toml` checks it all.

How it is laid out:

* `Base64Url`, `ClaimsJson`, `ClaimsExactly`, `JsonTheorems`, `Decimal`, `Jwt`, `TokensExactly`,
  `SignatureTheorems`, `Password` - the codecs. Text is `string` holding bytes (characters below
  256). HMAC and SHA-256 are arbitrary functions. The loops with 32-bit accumulators and moving
  cursors are methods, proved equal to grouping and grammar functions.
* `Redis`, `Keys`, `Timed`, `LoginGate`, `Captcha` - the store (a map from keys to text with an
  optional deadline, a clock in milliseconds), the five key families and what works on them.
  `StoreRuns`, `Throttle`, `StoreTheorems` and `FaultTheorems` reason about whole runs, the last about
  failing commands.
* `Database` (with the repository classes), `Service`, `Services` - the two tables, every service
  operation as one step of a state machine, and the service classes that compute those steps
  command by command. Every step says which of its Redis commands and repository calls fail.
* `SessionTheorems`, `AccountTheorems`, `RevocationTheorems`, `RotationTheorems`,
  `CleanupTheorems`, `RowTheorems`, `LoginTheorems`, `ServiceOnStore`, `ServiceBounds` - what holds
  over runs of all services together.
* `CredentialTheorems` (what a success needs and leaves), `AnswerTheorems` (which answer is given
  when), `CounterTheorems` (what is left of captchas, counters and locks), `FrameTheorems` (which
  sessions a call leaves alone), `TokenTheorems` (whom tokens speak for), `LifetimeTheorems` (from
  handing a token out to redeeming it), `ProvenanceTheorems` (where accepted captchas come from) -
  the services' steps and runs in terms of rows, records and counters alone.
* `Pool`, `PoolTheorems`, `Sql`, `Paging`, `ListingTheorems`, `Weighted` - the connection pool as
  interleaved steps, BuildSQL against the server's literal lexer, listing on the text the server is
  sent, and weighted choice.

The classes `RedisClient`, `SmsService`, `MySql`, `UserDB`, `TokenRepository`, `AuthService` and
`UserService` are the imperative half: their rows below say that the code's sequence of commands is
the step of that name. The results are the lemmas about the steps.

A store entry lives strictly before its deadline. An operation sees one instant of the clock. DATETIME
columns hold whole seconds, the token clock counts nanoseconds; `RotationTheorems.Signing` ties them.

Places where the code differs from what its comments or the cited standards suggest, and what is
proved instead:

* The printer writes `\b` and `\f` but the parser does not read them, and values that begin with a
  digit or minus are printed without quotes; `ClaimsExactly.ParsePrintIff` says exactly which maps come
  back, and `TokensExactly` which tokens.
* A token whose `exp` equals the present instant is accepted (section 4.1.4 of RFC 7519 refuses it).
* A redeemed refresh token stays redeemable when the deletion inside the call fails
  (`SessionTheorems.FailedRemovalRedeemsTwice`); `RedeemRemovesExactly` is the exact condition.
* Disabling a user twice does not repair a failed revocation
  (`RevocationTheorems.FailedDisablingIsNotRepaired`); `RevokesExactly` is the exact condition.
* Deleting an account is commented as freeing its mobile number (src/services/user_service.cpp:195),
  but the update does not write the number; `RowTheorems.NumbersAreNeverFreed` shows it stays taken.
* An update that changes nothing is reported as a row not found, so renaming a user to the name it
  has, or deleting a disabled account, is answered UserNotFound; `AnswerTheorems` says exactly when.
* A page whose offset overflows a 32-bit int is refused or shows the rows at the wrapped offset
  (`Paging.PageIsRightExactly`).
* When the command that sets a captcha lock fails, the guesses are forgotten; when the command that
  sets a login lock fails on a counter without a deadline, the lock never ends
  (`FaultTheorems.LimitLocksExactly`, `LimitLastsExactly` and `EndlessLock`).
* Two text parameters side by side in a template run into one literal (`Sql.LexFill`).

## Model

| member | source | states |
|---|---|---|
| `Base64Url.FieldsAreTheGroup` | src/auth/jwt_service.cpp:36-59 | the four 6-bit fields of three bytes are the digits of the 24-bit group of section 4 of RFC 4648, and give the bytes back |
| `Base64Url.BytesAreTheGroup` | src/auth/jwt_service.cpp:68-100 | the three bytes of four letters are the same 24-bit group, and give the letters back |
| `Base64Url.DecodeEncode` | src/auth/jwt_service.cpp:36-100 | decoding an encoding gives every byte string back |
| `Base64Url.EncodeDecodeExactly` | src/auth/jwt_service.cpp:36-100 | encoding a decoding gives the text back exactly when it is canonical: alphabet letters only, no stray length, no spare bits |
| `Base64Url.Base64UrlEncode` | src/auth/jwt_service.cpp:36-59 | the accumulator loop, wrapping at 32 bits, computes the grouping for inputs of any length |
| `Base64Url.Base64UrlDecode` | src/auth/jwt_service.cpp:68-100 | the decoding loop computes the inverse grouping up to the first letter outside the alphabet |
| `ClaimsJson.EscapeJsonString` | src/auth/jwt_service.cpp:134-149 | the escape loop maps every character by the escape table |
| `ClaimsJson.BuildJson` | src/auth/jwt_service.cpp:157-177 | the loop prints the members in key order between braces |
| `ClaimsJson.AppendMember` | src/auth/jwt_service.cpp:163-173 | one member: quoted key, value bare when it looks like a number and quoted otherwise |
| `ClaimsJson.ParseStringAt` | src/auth/jwt_service.cpp:197-219 | the cursor loop reads what the grammar reads and stops where it stops, consuming nothing where no quote stands |
| `ClaimsJson.ParseValueAt` | src/auth/jwt_service.cpp:222-238 | the same for a quoted or bare value |
| `ClaimsJson.ParseJson` | src/auth/jwt_service.cpp:186-257 | the parser terminates on every text and computes the grammar's claims |
| `ClaimsJson.ParsePrint` | src/auth/jwt_service.cpp:157-257 | parsing a printed map gives the map back, for non-empty keys and the values the printer can carry |
| `ClaimsJson.ParsePrintExactly` | src/auth/jwt_service.cpp:157-257 | the last value of a map whose other values are good comes back if and only if the printer can carry it |
| `ClaimsExactly.ParsePrintIff` | src/auth/jwt_service.cpp:157-257 | a map with non-empty keys comes back if and only if the printer can carry all its values, wherever the bad ones stand; otherwise one of the entries is lost |
| `ClaimsExactly.BadIsLost` | src/auth/jwt_service.cpp:157-257 | which entry is lost: one that broke is never repaired by what else the text holds |
| `ClaimsExactly.NeverRead` | src/auth/jwt_service.cpp:186-257 | wherever in the printed text the parser may stand, it does not read the longest derailing value under its key |
| `JsonTheorems.StandardReaderReadsBack` | src/auth/jwt_service.cpp:134-149 | a reader that follows section 7 of RFC 8259 gets every escaped string back if and only if it holds no control character but the five that have an escape, and refuses it otherwise |
| `Jwt.AcceptedTokensAreSigned` | src/auth/jwt_service.cpp:314-366 | an accepted token is header, payload and the signature of exactly these two |
| `Jwt.VerifyCreated` | src/auth/jwt_service.cpp:284-366 | a created token splits at its own dots and passes its own signature; the rest is the parsed payload and its expiry |
| `Jwt.VerifyIssued` | src/auth/jwt_service.cpp:284-366 | claims with an expiry come back unchanged up to and including that instant, and are expired afterwards |
| `Jwt.AccessRoundTrip` | src/auth/jwt_service.cpp:429-600 | an access token yields exactly its user's id, uuid, mobile, role and expiry until it expires, and never passes as a refresh token |
| `Jwt.RefreshRoundTrip` | src/auth/jwt_service.cpp:487-648 | a refresh token yields exactly its user's id until it expires, and never passes as an access token |
| `Jwt.UuidIsReadBackExactly` | src/auth/jwt_service.cpp:429-600 | for a printable issuer and mobile, the uuid of an access token comes back if and only if the printer can carry it |
| `TokensExactly.AccessRoundTripExactly` | src/auth/jwt_service.cpp:429-600 | until it expires an access token yields its user if and only if the printer can carry the issuer, the mobile and the uuid |
| `TokensExactly.RefreshRoundTripExactly` | src/auth/jwt_service.cpp:487-648 | until it expires a refresh token yields its user id if and only if the printer can carry the issuer |
| `SignatureTheorems.ThreePartsExactly` | src/auth/jwt_service.cpp:314-366 | three parts pass if and only if the third is the signature of the other two and the expiry, if there is one, is a number not yet past; only signed tokens are told to be expired |
| `SignatureTheorems.FewerPartsFail` | src/auth/jwt_service.cpp:314-366 | a text with fewer than two dots never passes |
| `SignatureTheorems.ForeignIssuerIsRefused` | src/auth/jwt_service.cpp:524-648 | tokens of an issuer that shares the secret but has another name are refused |
| `SignatureTheorems.RefreshTokensDiffer` | src/auth/jwt_service.cpp:487-506 | two refresh tokens are the same text only for the same user, second and draw |
| `SignatureTheorems.AccessTokensDiffer` | src/auth/jwt_service.cpp:429-452 | two access tokens are the same text only for the same id, uuid, mobile, role, second and draw |
| `SignatureTheorems.DistinctDrawsAreFresh` | src/auth/jwt_service.cpp:487-506 | in a run of all services whose calls draw differently, every refresh token has a fresh hash: what the theorems on redeemed, revoked and cleaned sessions ask for |
| `Decimal.ReadBack` | src/services/auth_service.cpp:318-319 | printing a number and reading it with stoll, strtoll or stoi gives the number back within their ranges |
| `Decimal.ReadsInContext` | src/services/auth_service.cpp:318-319 | the library reads a number between leading space and any text that follows its digits, where Redis refuses all but the bare number |
| `Password.HexIsInjective` | include/common/password_helper.h:69-76 | different byte strings print differently in hex |
| `Password.BytesToHex` | include/common/password_helper.h:69-76 | the loop prints two digits a byte, most significant first |
| `Password.ConstantTimeCompare` | include/common/password_helper.h:78-85 | the OR of the XORs is zero exactly for equal texts |
| `Password.VerifyExactly` | include/common/password_helper.h:20-66 | a password verifies against a record if and only if it digests like the recorded one under the record's salt |
| `Password.AcceptedRecordsExactly` | include/common/password_helper.h:41-66 | any stored text accepts a password if and only if it is the prefix, a salt without `$` and the hex digest of this salt and this password |
| `Password.VerifyPassword` | include/common/password_helper.h:41-66 | the straight-line code with its two loops is that verification |
| `RedisClients.RedisClient.SetPx` | src/cache/redis_client.cpp:106-118 | a write with a positive ttl, live until now plus ttl; others are refused unsent |
| `RedisClients.RedisClient.Incr` | src/cache/redis_client.cpp:291-297 | counts from nothing without a deadline, keeps a deadline, fails on text and at the top of the range |
| `RedisClients.RedisClient.PExpire` | src/cache/redis_client.cpp:173-180 | moves the deadline of a live key only |
| `RedisClients.RedisClient.PTTL` | src/cache/redis_client.cpp:182-192 | the time left, -1 without a deadline, -2 without a key |
| `Keys.TextIsInjective` | src/auth/sms_service.cpp:248-298 | the five key functions never collide, for any scenes and any mobile texts |
| `LoginGate.RecordOnPlainValues` | src/services/auth_service.cpp:481-509 | on its own counter: the first failure opens the window, later ones keep it, the last sets the lock; no other key is touched |
| `LoginGate.AttemptOnPlainValues` | src/services/auth_service.cpp:122-183 | a whole login attempt on its own counter, with its answer |
| `Captcha.SendOnPlainValues` | src/auth/sms_service.cpp:17-100 | sending on the record of one scene and mobile and the mobile's interval, with its answer |
| `Captcha.VerifyOnPlainValues` | src/auth/sms_service.cpp:103-197 | verifying on that record alone, with its answer |
| `Captcha.ConsumeOnPlainValues` | src/auth/sms_service.cpp:200-204 | consuming takes the code away and nothing else |
| `Captcha.PlainMachineIsSound` | src/auth/sms_service.cpp:46-197 | every operation keeps: a lock stands without code and counter, a counter stays between 1 and max - 1 |
| `SmsServices.SmsService.SendCaptcha` | src/auth/sms_service.cpp:17-100 | the command sequence, with any commands failing, is the send step |
| `SmsServices.SmsService.VerifyCaptcha` | src/auth/sms_service.cpp:103-197 | the command sequence, with any commands failing, is the verify step |
| `SmsServices.SmsService.ConsumeCaptcha` | src/auth/sms_service.cpp:200-204 | the command is the consume step; a failure is not reported |
| `StoreRuns.FlatStoreRefinesRecords` | src/auth/sms_service.cpp:248-298 | every operation on the one string-keyed store is the same operation on independent records per scene and mobile |
| `StoreRuns.ReachableIsTidy` | src/auth/sms_service.cpp:17-204 | in every reachable store and for every scene and mobile: counters are numbers within their limits with a deadline, and a lock stands alone |
| `StoreRuns.EmptyIsTidy` | src/auth/sms_service.cpp:264-298 | an empty store is such a store, so every run from one is covered |
| `StoreTheorems.LockoutBound` | src/services/auth_service.cpp:122-183 | in a run of length T without a clear, a mobile gets at most max * (T / min(window, lock) + 1) wrong-password answers |
| `StoreTheorems.LimitSetsTheLock` | src/services/auth_service.cpp:481-509 | reaching the limit sets exactly the lock duration |
| `StoreTheorems.LockLasts` | src/services/auth_service.cpp:437-475 | until that deadline every attempt is answered AccountLocked and nothing moves the deadline |
| `StoreTheorems.GuessBound` | src/auth/sms_service.cpp:103-197 | in a success-free run of length T a scene and mobile takes at most max * (T / min(retry ttl, lock) + 1) wrong guesses |
| `StoreTheorems.CodesAreTraced` | src/auth/sms_service.cpp:46-100 | a live code is that of the latest undisturbed send, with that send's deadline |
| `StoreTheorems.AcceptedCodesWereSent` | src/auth/sms_service.cpp:103-197 | a guess is accepted if and only if no lock stands and it is the code of the latest send, sent less than the code's lifetime ago, with no lock, rollback or consume since |
| `StoreTheorems.SendsAreSpaced` | src/auth/sms_service.cpp:46-78 | two sends to a mobile that store a code, whatever their scenes, are at least the send interval apart |
| `FaultTheorems.LimitLocksExactly` | src/auth/sms_service.cpp:150-190 | the guess that reaches the limit leaves a lock, the code, the counter exactly according to which of its last three commands fail; nothing at all is left exactly when the first fails and the others do not |
| `FaultTheorems.LimitLastsExactly` | src/services/auth_service.cpp:481-497 | the attempt that reaches the limit sets the lock's deadline, or keeps the counter's own when its PEXPIRE fails: no deadline exactly when it fails on a counter without one |
| `FaultTheorems.EndlessLock` | src/services/auth_service.cpp:437-475 | a counter at the limit without a deadline locks the mobile through every run that does not clear it, whatever else fails |
| `FaultTheorems.AcceptedCodesWereAsked` | src/auth/sms_service.cpp:103-197 | whatever commands fail in a run: a captcha is accepted only without a lock and only if it was asked to be sent, for this scene and mobile, less than its lifetime ago |
| `Throttle.Bound` | src/services/auth_service.cpp:481-509 | the accounting behind both bounds: epochs of at most max attempts that each last at least d |
| `CounterTheorems.PasswordsCount` | src/services/auth_service.cpp:481-509 | over the service step: each WrongPassword answer adds one to its own counter, with the window opened by the first, kept by the next and the lock set by the last; a login clears it, other answers and other mobiles leave it |
| `CounterTheorems.ComparisonsCount` | src/auth/sms_service.cpp:135-197 | over the service step: a right code clears the wrong guesses and stays, a wrong one is counted for the retry time or leaves only the lock, and other scenes, mobiles and counters stay |
| `CounterTheorems.SendsCount` | src/auth/sms_service.cpp:46-100 | over the service step: a send that goes ahead stores its code and the interval for their times, one that is not delivered leaves no code, one that does not go ahead leaves all |
| `ProvenanceTheorems.StepFollowsCode` | src/auth/sms_service.cpp:17-197 | whatever the database does, a call stores a code exactly when it answers Sent and removes one exactly when its delivery fails or a guess reaches the limit |
| `ProvenanceTheorems.ServiceCodesAreTraced` | src/auth/sms_service.cpp:46-197 | in every run of all services the stored code is that of the latest undisturbed send, until its lifetime ends |
| `ProvenanceTheorems.RightCodesWereSent` | src/auth/sms_service.cpp:103-197 | after every run a code is right if and only if no lock stands and it is that of the latest send, less than its lifetime old, with no failed delivery and no limit reached since |
| `ProvenanceTheorems.OpeningCodesWereSent` | src/services/auth_service.cpp:64-299 | a captcha login, registration, reset or deletion that goes through, whatever fails in it, used exactly the code that some earlier call of the run sent for its scene and mobile, less than its lifetime before and undisturbed since |
| `Repositories.UserDB.Create` | src/db/user_db.cpp:26-75 | inserts an enabled row under the next id and reads it back, or tells which unique key is taken |
| `Repositories.UserDB.Update` | src/db/user_db.cpp:93-129 | writes name, password, disabled and role of the row with the uuid; a row it does not change is reported as not found |
| `Repositories.UserDB.FindByField` | src/db/user_db.cpp:345-374 | the row with that field value, not found, or unavailable |
| `Repositories.UserDB.ExistsByField` | src/db/user_db.cpp:376-395 | whether there is such a row, or unavailable |
| `Repositories.MySql.QueryUsers` | src/db/mysql_connection.cpp:102-131 | the server is sent the text BuildSQL substitutes, and reads that |
| `Repositories.MySql.QueryCount` | src/db/mysql_connection.cpp:102-131 | the same for a count |
| `Repositories.UserDB.FindAll` | src/db/user_db.cpp:245-292 | builds statement and bindings, has them substituted and sent, and gets exactly the page's rows |
| `Repositories.UserDB.Count` | src/db/user_db.cpp:301-340 | the same way gets exactly the number of matching rows |
| `Repositories.UserDB.Filter` | src/db/user_db.cpp:255-266 | clauses and bindings are appended side by side |
| `Repositories.TokenRepository.SaveRefreshToken` | src/auth/token_repository.cpp:28-66 | adds one session for a known user and a new hash, with its expiry |
| `Repositories.TokenRepository.IsTokenValid` | src/auth/token_repository.cpp:108-131 | tells whether the hash has an unexpired session |
| `Repositories.TokenRepository.CountActiveSessionsByUserId` | src/auth/token_repository.cpp:136-161 | the number of the user's unexpired sessions |
| `Repositories.TokenRepository.DeleteByTokenHash` | src/auth/token_repository.cpp:167-191 | removes the session of the hash, if any |
| `Repositories.TokenRepository.DeleteByUserId` | src/auth/token_repository.cpp:196-213 | removes exactly the user's sessions |
| `Repositories.TokenRepository.CleanExpiredTokens` | src/auth/token_repository.cpp:217-234 | removes exactly the expired sessions and counts them |
| `Services.AuthService.CheckLoginFailedAttempts` | src/services/auth_service.cpp:437-475 | open when Redis fails, locked at the limit, an exception on a counter that is no number |
| `Services.AuthService.RecordLoginFailure` | src/services/auth_service.cpp:481-509 | its commands, any of them failing, are the counter's step |
| `Services.AuthService.ClearLoginFailure` | src/services/auth_service.cpp:515-522 | deletes the counter, ignoring a failure |
| `Services.AuthService.StoreRefreshToken` | src/services/auth_service.cpp:528-531 | saves the token's hash, ignoring a failure |
| `Services.AuthService.SendVerifyCode` | src/services/auth_service.cpp:26-61 | the calls in sequence are the send step of the service machine |
| `Services.AuthService.Register` | src/services/auth_service.cpp:64-119 | the same for registering |
| `Services.AuthService.LoginByPassword` | src/services/auth_service.cpp:122-183 | the same for a password login |
| `Services.AuthService.LoginByCode` | src/services/auth_service.cpp:185-241 | the same for a captcha login |
| `Services.AuthService.ResetPassword` | src/services/auth_service.cpp:247-299 | the same for a password reset |
| `Services.AuthService.RefreshToken` | src/services/auth_service.cpp:306-359 | the same for redeeming a refresh token |
| `Services.AuthService.Logout` | src/services/auth_service.cpp:362-380 | the same for a logout, which always succeeds |
| `Services.AuthService.LogoutAll` | src/services/auth_service.cpp:383-400 | the same for a logout everywhere |
| `Services.UserService.UpdateUser` | src/services/user_service.cpp:46-98 | the same for a new name |
| `Services.UserService.ChangePassword` | src/services/user_service.cpp:101-156 | the same for a new password |
| `Services.UserService.DeleteUser` | src/services/user_service.cpp:159-207 | the same for deleting an account |
| `Services.UserService.SetUserDisabled` | src/services/user_service.cpp:290-326 | the same for disabling and enabling, with the early return |
| `Services.UserService.ClearPasswords` | src/services/user_service.cpp:273-276 | the loop hides every row's password hash and changes nothing else |
| `Services.UserService.ListUsers` | src/services/user_service.cpp:233-287 | clamps, counts, finds and hides as the listing function says |
| `CredentialTheorems.PasswordLoginNeeds` | src/services/auth_service.cpp:122-183 | whatever fails: a password login needs an enabled row with the mobile whose hash the password verifies against, and answers with that row |
| `CredentialTheorems.CodeLoginNeeds` | src/services/auth_service.cpp:185-241 | whatever fails: a captcha login needs an enabled row with the mobile, no live lock and exactly this code alive |
| `CredentialTheorems.RegistrationNeeds` | src/services/auth_service.cpp:64-119 | whatever fails: so does a registration, for a mobile and a uuid that no row has |
| `CredentialTheorems.ResetNeeds` | src/services/auth_service.cpp:247-299 | whatever fails: so does a reset, for a row with the mobile |
| `CredentialTheorems.DeletionNeeds` | src/services/user_service.cpp:159-207 | whatever fails: so does a deletion, with the mobile of the row that has the uuid |
| `CredentialTheorems.ChangeNeeds` | src/services/user_service.cpp:101-156 | whatever fails: a changed password needs an enabled row, two different valid passwords and the old one verifying |
| `CredentialTheorems.RefreshNeeds` | src/services/auth_service.cpp:306-359 | whatever fails: a redeemed token parses to the id of an enabled row and has a session whose lifetime lasts |
| `CredentialTheorems.ResetSets` | src/services/auth_service.cpp:247-299 | a reset answered Done leaves the row with the new hash |
| `CredentialTheorems.ChangeSets` | src/services/user_service.cpp:101-156 | so does a changed password |
| `CredentialTheorems.UpdateSets` | src/services/user_service.cpp:46-98 | an update answered with a row leaves that row, under the new name if one was given |
| `CredentialTheorems.DeletionSets` | src/services/user_service.cpp:159-207 | a deletion answered Done leaves the row disabled |
| `CredentialTheorems.SwitchingSets` | src/services/user_service.cpp:290-326 | SetUserDisabled answered Done leaves the row disabled or enabled as asked |
| `AnswerTheorems.SendAnswers` | src/services/auth_service.cpp:26-61 | exactly when a send answers Sent with the interval, MobileTaken, UserNotFound, RateLimited or a failure |
| `AnswerTheorems.RegistrationAnswers` | src/services/auth_service.cpp:64-119 | logged in if and only if the arguments are valid, the captcha is right and uuid and mobile are unused; else the error of the first of these that fails |
| `AnswerTheorems.PasswordLoginAnswers` | src/services/auth_service.cpp:122-183 | logged in if and only if the arguments are valid, the failures are below the limit, the row is enabled and the password verifies; WrongPassword exactly for an unknown mobile or a password that does not |
| `AnswerTheorems.CodeLoginAnswers` | src/services/auth_service.cpp:185-241 | logged in if and only if the arguments are valid, the captcha is right and the row is enabled; else CaptchaExpired, CaptchaWrong, RateLimited, AccountLocked, UserNotFound or UserDisabled, exactly when each is due |
| `AnswerTheorems.ResetAnswers` | src/services/auth_service.cpp:247-299 | Done if and only if the arguments are valid, the captcha is right and the new hash differs from the row's |
| `AnswerTheorems.DeletionAnswers` | src/services/user_service.cpp:159-207 | Done if and only if the arguments are valid, the captcha for the row's mobile is right and the row is enabled |
| `AnswerTheorems.ChangeAnswers` | src/services/user_service.cpp:101-156 | Done if and only if the row is enabled, both passwords are valid and different, the old one verifies and the new hash differs; WrongPassword, arguments valid and row enabled, exactly when the old one does not verify |
| `AnswerTheorems.UpdateUserAnswers` | src/services/user_service.cpp:46-98 | answered with the row if and only if it is enabled and no name, or a valid and different one, is given |
| `AnswerTheorems.SwitchingAnswers` | src/services/user_service.cpp:290-326 | Done if and only if there is such a row |
| `AnswerTheorems.LogoutAnswers` | src/services/auth_service.cpp:362-400 | a logout is always Done, a logout everywhere if and only if there is such a row |
| `AnswerTheorems.RefreshAnswers` | src/services/auth_service.cpp:306-359 | a token that parses to an id is redeemed if and only if the row is enabled and the token's session is stored and not expired; else UserNotFound, UserDisabled or TokenRevoked, exactly when each is due |
| `AnswerTheorems.UnreadableTokenAnswers` | src/services/auth_service.cpp:306-320 | any other token is answered with the parser's error, or throws on a subject that is no number, and no session changes |
| `AnswerTheorems.QueryAnswers` | src/auth/token_repository.cpp:108-161 | a hash is valid exactly while its session lasts, and the count is the number of the user's lasting sessions |
| `AnswerTheorems.CleanupTakesExpired` | src/auth/token_repository.cpp:217-234 | a cleanup removes exactly the expired sessions and reports their number |
| `AnswerTheorems.UnreadCounterLetsIn` | src/services/auth_service.cpp:437-450 | when the counter cannot be read a password login is decided by the row and the password alone |
| `AnswerTheorems.OutageChangesNothing` | src/db/user_db.cpp:26-129 | while every repository call fails no table changes, and no operation on the tables answers success |
| `SessionTheorems.StepGrows` | src/services/auth_service.cpp:528-531 | under any faults a call adds no session but that of the token it hands out, and changes none |
| `SessionTheorems.GoneStaysGone` | src/auth/token_repository.cpp:167-234 | with fresh hashes a known hash without a session never gets one again |
| `SessionTheorems.RedeemRemovesExactly` | src/services/auth_service.cpp:306-359 | a redeemed token loses its session if and only if the call's third repository call does not fail |
| `SessionTheorems.FailedRemovalRedeemsTwice` | src/services/auth_service.cpp:343-344 | when it does fail, the same token is redeemed a second time |
| `SessionTheorems.RedeemedAtMostOnce` | src/services/auth_service.cpp:306-359 | in every run with fresh hashes each token is redeemed at most once, unless that deletion failed |
| `SessionTheorems.NeverRedeemedAgain` | src/services/auth_service.cpp:306-400 | with fresh hashes, once any call has taken a token's session away no later call redeems the token |
| `FrameTheorems.SessionsStand` | src/auth/token_repository.cpp:167-234 | whatever fails, a call leaves every session unchanged unless it redeems or logs out its token, revokes its user having got that far, or is a cleanup past its lifetime |
| `FrameTheorems.SessionsLast` | src/auth/token_repository.cpp:167-234 | over runs: a session lasts unchanged until such a call |
| `TokenTheorems.TokensAreForTheUser` | src/auth/jwt_service.cpp:388-394 | whatever fails, every pair handed out is made from the row of the user concerned, and the answer shows that row |
| `TokenTheorems.RegistrationTokens` | src/services/auth_service.cpp:89-116 | a registration appends exactly the new ordinary enabled row and hands out its tokens |
| `TokenTheorems.AnsweredTokensNameTheUser` | src/auth/jwt_service.cpp:388-648 | with the real tokens: until its lifetime ends the access token of any answer verifies to exactly the id, uuid, mobile and role of that row, the refresh token to its id, neither passes for the other, and expires_in is the access lifetime |
| `LifetimeTheorems.SessionStoredExactly` | src/services/auth_service.cpp:528-531 | whatever fails, the session of a token handed out is stored, for its user and lifetime, if and only if the insertion does not fail |
| `LifetimeTheorems.HandedOutIsRedeemed` | src/services/auth_service.cpp:306-359 | over runs, with the real tokens: a refresh token whose session was stored is redeemed as long as its lifetime lasts and its user is enabled, unless a call ended that very session |
| `AccountTheorems.TablesStayWellKept` | src/db/user_db.cpp:26-129 | under any faults ids, uuids and mobiles stay unique and every session has an owner |
| `AccountTheorems.StepKeeps` | src/services/user_service.cpp:159-326 | every operation keeps that, and with a working database keeps disabled users without sessions |
| `AccountTheorems.DisabledHoldNone` | src/services/user_service.cpp:290-326 | in every reachable state of a working database disabled users hold no session |
| `RevocationTheorems.RevokesExactly` | src/services/auth_service.cpp:288-292 | a reset, logout everywhere, deletion or disabling that answers success leaves the user no session if and only if there was none, or its deletion was issued and did not fail |
| `RevocationTheorems.DisablingRevokesExactly` | src/services/user_service.cpp:304-307 | where disabled users hold none, the early return leaves none either |
| `RevocationTheorems.FailedDisablingIsNotRepaired` | src/services/user_service.cpp:304-322 | after a failed revocation, disabling again succeeds and leaves the sessions |
| `RevocationTheorems.RevokedIsNeverRedeemed` | src/services/auth_service.cpp:247-400 | over runs: a token whose session a successful call revoked is never redeemed afterwards |
| `RevocationTheorems.LoggedOutIsNeverRedeemed` | src/services/auth_service.cpp:362-380 | over runs: nor is a token that was logged out |
| `RotationTheorems.SessionsComeFromTheRun` | src/services/auth_service.cpp:528-531 | every session of a run was made by one of its calls, for the user its token was made for |
| `RotationTheorems.TokenNamesItsOwner` | src/services/auth_service.cpp:312-319 | the session a token redeems belongs to the user the token names |
| `RotationTheorems.RedeemingKeepsCounts` | src/services/auth_service.cpp:334-354 | a redemption changes its own user's live session count by exactly its failed deletion and insertion, and no other count: with a working database none |
| `RotationTheorems.SignedTokensAreFaithful` | src/auth/jwt_service.cpp:487-506 | the signed tokens meet what the two lemmas above ask of the codec |
| `CleanupTheorems.CleanupIsTransparent` | src/auth/token_repository.cpp:217-234 | cleanups at any points of any run, under any faults, change no answer of any other operation, given fresh hashes |
| `RowTheorems.StepFollows` | src/db/user_db.cpp:93-129 | under any faults every user row stays or becomes what the one call about it makes of it, in its one field; every row after a call comes from one before or is the row being registered |
| `RowTheorems.NumbersAreNeverFreed` | src/services/user_service.cpp:193-196 | over runs: a mobile number once used is never registered again, whatever is deleted |
| `RowTheorems.AnswersHidePasswords` | src/services/auth_service.cpp:112-115 | no answer carries a password hash |
| `LoginTheorems.DisabledUntilEnabled` | src/services/auth_service.cpp:153-157 | over runs, under any faults: a disabled user is handed no tokens by any login, registration or refresh until enabled |
| `LoginTheorems.StaysDisabled` | src/services/user_service.cpp:159-326 | no call but enabling makes a disabled user enabled |
| `LoginTheorems.NoTokensForDisabled` | src/services/auth_service.cpp:122-359 | no call hands tokens to a disabled user |
| `LoginTheorems.ChangedPasswordExactly` | src/services/user_service.cpp:101-156 | after a password change the unlocked user logs in with exactly the passwords that verify against the new hash |
| `LoginTheorems.ResetPasswordExactly` | src/services/auth_service.cpp:247-299 | the same after a reset, which also opens a locked login |
| `LoginTheorems.HashingVerifiesExactly` | include/common/password_helper.h:20-66 | with the salted hashes these are the passwords that digest like the new one |
| `ServiceOnStore.OperationIsOnStore` | src/services/auth_service.cpp:26-299 | on a working store every service operation does to Redis what at most two store operations do |
| `ServiceBounds.RunsOnStore` | src/services/auth_service.cpp:26-299 | so runs of the services and of the store machine reach the same store |
| `ServiceBounds.ServiceLockoutBound` | src/services/auth_service.cpp:122-183 | the lockout bound for runs of all services, whatever the database does |
| `ServiceBounds.ServiceGuessBound` | src/auth/sms_service.cpp:103-197 | the guess bound for runs of all services |
| `Pool.EveryRunIsSound` | include/pool/connection_pool.h:160-375 | in every interleaving: no connection idle or held twice, no acquisition released twice, every one released or held, idle + held + lost = size, one lost per failed rebuild, no lost wake-up |
| `Pool.StepKeepsWakeUps` | include/pool/connection_pool.h:315-375 | every step keeps: while a thread sleeps un-notified there are at least as many notified threads still to run as idle connections |
| `Pool.StepKeepsExclusive` | include/pool/connection_pool.h:160-237 | every step keeps connections and acquisitions single, through any chain of guard moves |
| `Pool.StepConserves` | include/pool/connection_pool.h:288-375 | every step conserves connections, and only a failed rebuild loses one |
| `Pool.SomebodyIsComing` | include/pool/connection_pool.h:315-375 | in every reachable state a thread asleep beside an idle connection has a notified thread ahead of it, which takes a connection if it is the next to run |
| `Pool.NobodySleepsBesideIdle` | include/pool/connection_pool.h:315-375 | whatever threads enter or return in between, once every notified thread has run nobody sleeps beside an idle connection |
| `Pool.DeadPoolStaysDead` | include/pool/connection_pool.h:332-375 | after as many failed rebuilds as connections, nothing is idle, held or handed out in any continuation of the run |
| `Pool.AcquireFailsExactly` | include/pool/connection_pool.h:315-348 | a thread that enters or is resumed leaves empty-handed exactly when it timed out with the pool empty, or its connection cannot be rebuilt |
| `PoolTheorems.HandedOut` | include/pool/connection_pool.h:328-347 | in every step: what a guard newly holds is the front connection, found valid, or one created in this step for a front one found invalid |
| `PoolTheorems.GivenBack` | include/pool/connection_pool.h:360-375 | in every step: what is newly idle is what the guard held, found valid, or one created in this step in its place |
| `PoolTheorems.QueueOrder` | include/pool/connection_pool.h:328-375 | the queue is served at the front and filled at the back, and otherwise left alone |
| `PoolTheorems.AcquiresExactly` | include/pool/connection_pool.h:315-348 | a thread gets a connection exactly when there is one that is valid or rebuilt, and sleeps exactly when there is none and its time is not up |
| `PoolTheorems.WakesExactly` | include/pool/connection_pool.h:372-374 | giving a connection back notifies one sleeping thread, losing it notifies none |
| `PoolTheorems.GuardsStand` | include/pool/connection_pool.h:160-237 | a guard keeps its connection until it is destroyed or moved from, and a move passes it on |
| `PoolTheorems.WaitersStand` | include/pool/connection_pool.h:315-326 | a waiting thread leaves only by being resumed, and is notified only by a connection given back |
| `PoolTheorems.InvalidNeverReturns` | include/pool/connection_pool.h:332-375 | in every interleaving a connection once found invalid is never idle or held again |
| `PoolTheorems.HeldWereGood` | include/pool/connection_pool.h:328-347 | in every interleaving whatever a guard holds was, when handed out, found valid or made on the spot |
| `Pools.ConnectionPool.InitPool` | include/pool/connection_pool.h:288-302 | fills the pool with the configured number of fresh connections, or throws at the first that cannot be made with those before it in the queue |
| `Pools.ConnectionPool.TakeConnection` | include/pool/connection_pool.h:328-347 | past the wait: the front connection if it is valid, one made in this call if it is not, none if that fails |
| `Pools.ConnectionPool.Release` | include/pool/connection_pool.h:360-375 | puts the connection or its replacement at the back and notifies, or loses it |
| `Pools.ConnectionGuard.MoveFrom` | include/pool/connection_pool.h:188-195 | the new guard holds the connection, the old one nothing |
| `Pools.ConnectionGuard.Destroy` | include/pool/connection_pool.h:227-232 | releases what it holds, once |
| `Sql.BuildSQL` | src/db/mysql_connection.cpp:326-366 | succeeds if and only if placeholders and parameters are equally many, tells which side is short, and fills from left to right |
| `Sql.FillOfSum` | src/db/mysql_connection.cpp:333-359 | a template is filled piece by piece: substituted text is never scanned again |
| `Sql.LexFill` | src/db/mysql_connection.cpp:326-366 | the server reads the template's tokens with every text parameter as one literal of exactly its value, if and only if no two text parameters touch |
| `Sql.MysqlEscapeIsInverted` | src/db/mysql_connection.cpp:259-277 | the client library's escaping meets the contract that theorem asks for |
| `Paging.StatementsAreFilled` | src/db/user_db.cpp:245-328 | FindAll's and Count's statements have as many placeholders as bindings |
| `Paging.TextsLex` | src/db/user_db.cpp:245-328 | for every filter text, whatever quotes or backslashes it holds, the texts sent lex into the statements' own tokens |
| `Paging.StatementsMean` | src/db/user_db.cpp:245-328 | for every escaping that meets the contract, the server answers the text FindAll sends with the page's rows and the text Count sends with their number: both apply exactly the query's filter |
| `Paging.StatementsMeanOnServer` | src/db/mysql_connection.cpp:259-366 | the same with the client library's escaping |
| `Paging.MatchingIsExact` | src/db/user_db.cpp:255-266 | the filter keeps exactly the accepted rows |
| `Paging.PagesPartition` | src/db/user_db.cpp:268-271 | the pages put together are every matching row exactly once in descending order, every page but the last full |
| `Paging.ListingPartitions` | src/services/user_service.cpp:233-287 | a caller who follows total_pages collects every matching user exactly once, without password hashes |
| `Paging.PageIsRightExactly` | include/entity/page.h:11-13 | a page shows the rows its number promises, in every table the unique keys allow, if and only if its offset fits an int |
| `ListingTheorems.ListingShowsExactly` | src/services/user_service.cpp:233-287 | for every request whose offset fits an int: the counts are those of the rows the filters want and the pages they fill, and the k-th user shown is the row with exactly offset + k wanted rows before it, less its hash |
| `Weighted.ExactlyProportional` | src/discovery/service_discovery.cpp:120-144 | with non-negative weights exactly weight_i of the draws choose instance i |
| `Weighted.ProportionalExactly` | src/discovery/service_discovery.cpp:120-144 | the choice is proportional if and only if no weight is negative |
| `Weighted.WalkStops` | src/discovery/service_discovery.cpp:135-144 | for any weights with a positive total the walk stops inside the loop |
| `Discovery.ServiceDiscovery.SelectInstance` | src/discovery/service_discovery.cpp:92-106 | the drawn instance, or none when there are none |
| `Discovery.ServiceDiscovery.SelectInstanceWeighted` | src/discovery/service_discovery.cpp:109-145 | the loops return the walk's instance; the statement past the loop is never reached |

## Left out

- Message texts and log lines, and with them the remaining times that the login check and the captcha calls read only to show them.
- Validators, HMAC, SHA-256 and random draws: arbitrary functions and arguments.
- The generated captcha is an argument; the code generates a fixed one at present.
- ValidateAccessToken, GetUser and GetCurrentUser: they copy fields of modelled results.
- `max_sessions_per_user` is configured but enforced nowhere, so no bound on sessions is claimed.
- ConsumeCaptcha has no caller in the services, so codes are not single-use there and no such claim is made.
- Durations whose milliseconds overflow an int: the run theorems ask for at most 2147483 seconds.
- Bounds under failing Redis commands: those on wrong passwords and guesses, the exact answers of captcha and password calls and the tracing of codes over runs ask for a working Redis, since a failed read lets a login through and a failed lock forgets the guesses; FaultTheorems says exactly which failures do what, and the session theorems hold under any faults.
- Concurrent requests inside one service call: a call is one step. Concurrency is in the pool.
- A repository call that fails after its statement took effect, except Create's second call.
- Time zones, collation of unique keys, column lengths; LIKE is an arbitrary relation (PageIsRightExactly asks it to accept the numbers that begin with the filter's text).
- SQL beyond the two listing statements: the server model reads their clauses in any number, and answers any other text as a syntax error.
- Server quotes other than the single one, comments and the NO_BACKSLASH_ESCAPES mode in the lexer; templates are asked to hold no quotes, and a double carries its printed text.
- The other FindAll overload, hard deletion and the remaining statements: they have no caller in the modelled operations.
- A connection factory that throws: inside Acquire it loses the connection as a failed rebuild does, inside Release it ends the process. The five-second deadline is a step that may come at any time.
- ZooKeeper, the instance cache's refresh, gRPC handlers, configuration loading and the cleanup thread itself; cleanup is a step that may come at any time.
- Signed overflow, undefined in C++, wraps here.
- RotationTheorems.RedeemingKeepsCounts: asks that no earlier token of the run collides in hash with the one redeemed, and that ids fit 64 bits.
