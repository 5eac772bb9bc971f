# pepecam core, modelled in Dafny

pepecam is a photo-booth web application. Users register, log in, lay
"superposable" pictures over a webcam capture, and like, dislike and
comment on each other's posts. This project models:

- **The API's in-process expiring cache** (`Cache`).
- **The session guards built on it.** A session is a JSON record of an
  account id and a random session id. It is stored in the sessions cache
  under the account id and handed to the browser as the "session" cookie.
  The three request guards are `Unconnected`, `Connected` and
  `IsConnected`.
- **The user routes:**
  - login and logout
  - registration and its confirmation token
  - password reset (POST then PUT)
  - e-mail change (PUT /user, then POST /email)
- **The parameter checks** on usernames, passwords and e-mail addresses.
- **The superposable names.**
- **The front end's cookie parsers, form serializer and error message,**
  and the like/dislike/comment logic of the post widget.

Every route is modelled in the same way:
- Time, the random tokens and session ids, the password hasher's verdict
  and the database's verdict on a write are parameters.
- The database reads are functions of a `Database.Db` snapshot.
- The writes a handler sends are returned as `Database.Write` values.
- Each route is a method over the caches. It is proved equal to a set of
  specification functions of the old state:
  - `Issued`: what the route writes to the database.
  - `Reply`: what it answers.
  - `Remaining` / `Parked` / `Requested`: what it leaves in its cache.
- The properties across requests are lemmas over those functions:
  - a confirmation after a registration creates exactly that user;
  - every token can be used only once;
  - a logout disconnects the session and can be repeated safely;
  - a second login invalidates the first session.

The e-mail check of registration (`Register.EmailCheck`) does not use the
validation module. It uses the pattern in `api/src/regex.rs`. In that
copy, the right single quotation mark of the local-part class is stored
as three mis-decoded characters (U+00E2, U+20AC, U+2122). Registration
and the e-mail change therefore accept different addresses.
`Validation.QuoteNotInCopiedClass` and `Validation.EuroInCopiedClass`
show the difference on concrete addresses.

Two sets of session guards exist, and both are in use:
- `api/src/auth.rs` (`Session`) reads the "session" cookie. Its
  `Unconnected` guard refuses every request that carries that cookie,
  valid or not, with Forbidden/LoggedIn. Login and registration use it.
- `api/src/session.rs` (`SessionDraft`), declared by `mod session` in
  `api/src/main.rs`, reads the private "account_id" cookie, and its account
  check is a stub that knows one account id. Its `Unconnected` guard
  answers Forbidden/LoggedIn for that id and BadRequest/InvalidSession for
  any other value. The confirmation route (`api/src/routes/user/confirm.rs`)
  is guarded by it. It never looks at the "session" cookie, so a browser
  that logged in can still confirm a registration
  (`Confirm.SessionCookieIgnored`).

## Model

| member | source | states |
|---|---|---|
| Uuid.FromSqlxToSerde | api/src/uuid.rs:7-9 | the JSON-layer UUID carries the same sixteen bytes as the driver's |
| Uuid.FromSerdeToSqlx | api/src/uuid.rs:12-14 | the driver UUID carries the same sixteen bytes as the JSON layer's |
| Uuid.ConversionsRoundTrip | api/src/uuid.rs:6-14 | the two conversions are inverse to each other in both directions |
| Uuid.Format | api/src/auth.rs:81 | an id's text form is 36 characters with hyphens at positions 8, 13, 18 and 23 |
| Uuid.ParseFormat | api/src/auth.rs:35-37 | the text form of an id (the sessions-cache key) parses back to the same id, so `is_valid_account` looks up the right account |
| Uuid.FormatInjective | api/src/auth.rs:81-82 | distinct ids have distinct text forms |
| Cache.NewItem | api/src/cache.rs:26-37 | a new item holds the value and is expired at a later instant exactly when its lifetime has been exceeded |
| Cache.ExpiredIffPastDeadline | api/src/cache.rs:35-37 | an item is expired exactly when the clock is past creation plus lifetime (strictly) |
| Cache.ExpiryIsPermanent | api/src/cache.rs:35-37 | once expired, an item stays expired as time goes on |
| Cache.Live | api/src/cache.rs:77-87 | a read yields a value exactly when the key is present and its item is not expired, and then the item's value |
| Cache.Evicted | api/src/cache.rs:77-81 | after a read only that key's expired item is gone; every other key's item is unchanged |
| Cache.Swept | api/src/cache.rs:113-116 | after a cleanup exactly the unexpired items remain, unchanged |
| Cache.Cache.constructor | api/src/cache.rs:49-53 | a new cache is empty |
| Cache.Cache.Set | api/src/cache.rs:58-72 | stores a fresh item under the key; hands back the previous value only if it was still live |
| Cache.Cache.Get | api/src/cache.rs:75-88 | returns the live value and removes an expired item under the key, nothing else |
| Cache.Cache.Del | api/src/cache.rs:92-104 | removes the key whatever its state and returns its value only if it was live (a pop) |
| Cache.Cache.Exists | api/src/cache.rs:107-110 | plain key membership: an expired item not yet removed counts |
| Cache.Cache.Cleanup | api/src/cache.rs:113-116 | the new map is the swept old map |
| Cache.SetThenLive | api/src/cache.rs:58-88 | after a set, every read up to the end of the lifetime sees the value and evicts nothing |
| Cache.SetThenExpired | api/src/cache.rs:58-88 | after a set, a read past the lifetime sees nothing and removes the item |
| Cache.GetLiveKeepsMap | api/src/cache.rs:75-88 | a read of a live key leaves the map as it was |
| Cache.RemovalsAreInvisible | api/src/cache.rs:75-116 | neither a read's eviction nor a cleanup changes what any later read of any key sees |
| Cache.DelIsSingleUse | api/src/cache.rs:90-104 | after a delete, a second delete of that key finds nothing and changes nothing |
| Cache.ExistsSeesExpired | api/src/cache.rs:107-110 | an expired item still counts for `exists` while a read already sees nothing |
| Cache.OtherKeysUntouched | api/src/cache.rs:58-104 | set, get and delete of one key leave every other key's item as it was |
| Cache.SweepIdempotent | api/src/cache.rs:113-116 | a second cleanup at the same instant changes nothing |
| Http.CookieJar.SessionCookie | api/src/auth.rs:114 | a request has a session cookie value exactly when the jar holds a "session" cookie |
| Http.CookieJar.Add | api/src/routes/user/login.rs:44-49 | adding a cookie sets that name only |
| Http.CookieJar.Remove | api/src/routes/user/logout.rs:20 | removing a cookie drops that name only |
| Database.Find | api/src/query.rs:131-142 | the account found is in the table and matches; none is found only when no account matches |
| Tokens.TokenName | api/src/routes/user/register.rs:74-75 | a token's cache key is its purpose's prefix followed by a text that parses back to the token |
| Tokens.TokenNameInjective | api/src/routes/user/reset.rs:48-49 | a token key determines both its purpose and its token, so tokens of different purposes or values never collide |
| Session.New | api/src/auth.rs:59-64 | a new session is for the given account and carries the freshly drawn session id |
| Session.Key | api/src/auth.rs:81 | an account's sessions-cache key parses back to that account's id |
| Session.KeyInjective | api/src/auth.rs:81-82 | distinct accounts have distinct sessions-cache keys |
| Session.Display | api/src/auth.rs:92-98 | the serialized session is the 105-character JSON object of its two ids |
| Session.FromStr | api/src/auth.rs:67-72 | text reads back as a session exactly when it has the serialized shape and both id slots parse, and then the session holds the parsed ids |
| Session.FromStrDisplay | api/src/auth.rs:67-98 | the cookie text written for a session reads back as that same session |
| Session.IsValidAccount | api/src/auth.rs:31-39 | text that is not a UUID names no account |
| Session.IsValidAccountOfKey | api/src/auth.rs:31-39 | for a key printed from an id, the account check is plain existence of that account |
| Session.SessionValidMeaning | api/src/auth.rs:76-89 | a session is valid exactly when a live item is stored under its account, with the same session id, and the account exists |
| Session.IsValid | api/src/auth.rs:76-89 | the verdict is SessionValid; the accounts table is consulted only after a live stored session with the same id is found; the cache sees one read of the account key |
| Session.Unconnected | api/src/auth.rs:107-121 | passes exactly when there is no session cookie; any cookie, valid or not, is refused as Forbidden/LoggedIn |
| Session.ConnectedOutcome | api/src/auth.rs:123-151 | no cookie is Unauthorized/NotLoggedIn; passes exactly when the cookie parses to a valid session, and yields that session; otherwise BadRequest/InvalidSession |
| Session.IsConnectedOutcome | api/src/auth.rs:153-176 | never fails; yields a session exactly when the `Connected` guard would pass, and the same session |
| Session.GuardEffect | api/src/auth.rs:134-140 | without a cookie, the guards leave the sessions cache alone |
| Session.ConnectedGuard | api/src/auth.rs:123-151 | the guard run on the cache answers ConnectedOutcome of the old state, and its only effect is one read of the cookie's account key |
| Session.IsConnectedGuard | api/src/auth.rs:153-176 | the guard run on the cache answers IsConnectedOutcome of the old state, with the same effect |
| Session.GuardEffectOfConnected | api/src/auth.rs:164-170 | for a connected request the guard's effect is a read of the connected account's key |
| Session.GuardSeesSameAgain | api/src/auth.rs:76-89 | run again at the same instant, the guard gives the same verdict: its own read does not change it |
| Session.NothingStoredNotConnected | api/src/auth.rs:82-87 | a cookie whose account has nothing stored is not connected |
| Session.NothingStoredNoEffect | api/src/auth.rs:82 | for such a cookie the guard's read changes nothing |
| Session.GuardEffectIdempotent | api/src/auth.rs:82 | repeating the guard's read at the same instant changes nothing more |
| Session.GuardEffectInvisible | api/src/auth.rs:82-88 | the guards' cache access never changes what any later read of any key sees |
| Login.Authenticated | api/src/routes/user/login.rs:31-35 | the credentials open an account exactly when the table has an account with that username and the password verifies against its hash, and then it is that account |
| Login.Created | api/src/routes/user/login.rs:36-38 | a session is created exactly for authenticated credentials, for that (existing) account and with the drawn session id |
| Login.SessionsAfter | api/src/routes/user/login.rs:39-43 | after a login the created session is live under its account key for one day; all other keys are unchanged; a failed login changes nothing |
| Login.CookiesAfter | api/src/routes/user/login.rs:44-49 | after a login the "session" cookie holds the serialized session and expires in one day; no other cookie changes |
| Login.Login | api/src/routes/user/login.rs:25-54 | good credentials answer the success message; unknown username and wrong password give the same error; cache and cookies are as above |
| Login.Post | api/src/routes/user/login.rs:57-76 | a request with a session cookie is refused with Forbidden/LoggedIn and changes nothing; otherwise OK or BadRequest with the login's effects |
| Login.LoginThenConnected | api/src/routes/user/login.rs:39-49 | the cookie a login sets, read decrypted, opens the `Connected` guard with the created session at any instant of its day, while the account exists |
| Login.SealedCookieRefused | api/src/auth.rs:134-147 | the cookie as written (encrypted by `add_private`, read by a plain `get`) never parses, so the guard answers BadRequest/InvalidSession |
| Login.SecondLoginInvalidatesFirst | api/src/routes/user/login.rs:39-43 | a second login for the same account makes the first session's cookie invalid at every instant |
| Logout.LogoutRemovesSession | api/src/routes/user/logout.rs:17-19 | a connected logout removes exactly the connected account's session and keeps every other item |
| Logout.LogoutOtherwiseInvisible | api/src/routes/user/logout.rs:14-19 | a logout without a valid session changes nothing any read can see |
| Logout.Post | api/src/routes/user/logout.rs:10-27 | always answers OK "logged out", always drops the session cookie, and leaves the cache as LogoutEffect |
| Logout.LogoutThenNotConnected | api/src/routes/user/logout.rs:17-20 | after a logout the same cookie fails the `Connected` guard at every later instant |
| Logout.LogoutIdempotent | api/src/routes/user/logout.rs:12-27 | a repeated logout at the same instant changes nothing more |
| Logout.LogoutRepeatInvisible | api/src/routes/user/logout.rs:12-27 | a later repeated logout changes nothing any read can see |
| Validation.Username | api/src/validation.rs:41-48 | accepted exactly when 6 to 64 characters long and all word characters; otherwise the one username message |
| Validation.UsernameExamples | api/src/validation.rs:7 | both length bounds are inclusive and a hyphen is refused |
| Validation.Rules | api/src/validation.rs:13-14 | one verdict per pattern, five in all |
| Validation.Matches | api/src/validation.rs:52-53 | the matched indices are exactly the indices of the patterns that match; all five are present exactly when every pattern matches |
| Validation.FirstFailing | api/src/validation.rs:55-59 | the index found has every earlier rule holding and is itself failing, if any rule fails |
| Validation.PasswordCheck | api/src/validation.rs:51-62 | accepted exactly when all five patterns match; otherwise the message of the first pattern that fails, all earlier ones matching |
| Validation.Password | api/src/validation.rs:51-62 | counting the matches and then looking for the first missing index gives PasswordCheck |
| Validation.PasswordErrorsDistinct | api/src/validation.rs:16-22 | the five messages are pairwise distinct, so a message names the rule that failed |
| Validation.PasswordExamples | api/src/validation.rs:11-14 | a password with every ingredient passes; one without a digit reports the digit rule |
| Validation.Utf8Length | api/src/validation.rs:66 | the byte length counted lies between the character count and four times it |
| Validation.EmailWith | api/src/validation.rs:65-70 | accepted exactly when the address matches the pattern and is at most 256 bytes; otherwise the one e-mail message |
| Validation.Email | api/src/validation.rs:65-70 | an address over 256 bytes is refused; otherwise the validation module's pattern decides |
| Validation.EmailAcceptsExamples | api/src/validation.rs:27-28 | no dot is required after the '@', and a dotted domain is accepted |
| Validation.EmailRefusesTrailingDot | api/src/validation.rs:27-28 | a domain ending in a dot is refused |
| Validation.EmailRefusesDoubledDot | api/src/validation.rs:27-28 | a domain with two dots in a row is refused |
| Validation.EmailRefusesEmptyLocal | api/src/validation.rs:27-28 | an empty local part is refused |
| Validation.EmailLimitCountsBytes | api/src/validation.rs:66 | 129 two-byte characters are refused although they are fewer than 257 characters |
| Validation.MatchesEmailAtOnlyAt | api/src/validation.rs:27-28 | with a single '@' the pattern is decided at that '@' |
| Validation.QuoteInValidationClass | api/src/validation.rs:27-28 | the right single quotation mark is a local-part character of the validation module |
| Validation.QuoteNotInCopiedClass | api/src/regex.rs:22-23 | it is not one of the copy used by registration |
| Validation.EuroInCopiedClass | api/src/regex.rs:22-23 | the euro sign, one of the mis-decoded characters, is a local-part character of the copy |
| Validation.EuroNotInValidationClass | api/src/validation.rs:27-28 | and not of the validation module |
| Register.EmailCheck | api/src/routes/user/register.rs:52-58 | an address over 256 bytes is refused; otherwise the copied pattern decides |
| Register.Rejection | api/src/routes/user/register.rs:29-72 | the first failing check in source order decides status and message; none fails exactly when all three formats pass and neither username nor e-mail is taken |
| Register.Post | api/src/routes/user/register.rs:18-87 | refused to a session holder; any failing check answers its failure and parks nothing; otherwise Created with the token, the user parked under the token's key for five minutes |
| Register.NoDuplicateAccounts | api/src/routes/user/register.rs:60-72 | a registration whose username or e-mail is in the accounts table always fails |
| SessionDraft.AccountCookie | api/src/session.rs:33 | the guards of `crate::session` see a value exactly when the "account_id" cookie is present, and it is that cookie's value |
| Confirm.Issued | api/src/routes/user/confirm.rs:16-32 | an account creation is sent exactly when the request has no "account_id" cookie and the token is live, and it creates the parked user |
| Confirm.Reply | api/src/routes/user/confirm.rs:14-43 | the "account_id" cookie of the known account gets Forbidden/LoggedIn, any other value BadRequest/InvalidSession; without it a dead token gets BadRequest naming the token, and a live one Created with the creation message, or Conflict |
| Confirm.Remaining | api/src/routes/user/confirm.rs:16-23 | without an "account_id" cookie the token's entry is gone, whatever the database answered, and other entries stay; with one the cache is unchanged |
| Confirm.Post | api/src/routes/user/confirm.rs:12-43 | the route's reply, write and new cache are Reply, Issued and Remaining of the old state |
| Confirm.RegisterThenConfirm | api/src/routes/user/confirm.rs:21-37 | confirming within five minutes of a registration, without an "account_id" cookie, creates exactly the registered user |
| Confirm.ConfirmTooLate | api/src/routes/user/confirm.rs:23-31 | after five minutes the token is refused and nothing is created |
| Confirm.ConfirmIsSingleUse | api/src/routes/user/confirm.rs:23-31 | after one confirmation, any second one with that token writes nothing and does not succeed; without an "account_id" cookie it is refused as an invalid token |
| Confirm.ConfirmKeepsOthers | api/src/routes/user/confirm.rs:21-23 | a confirmation does not change what any other registration token redeems |
| Confirm.SessionCookieIgnored | api/src/routes/user/confirm.rs:16 | adding or changing the "session" cookie changes neither the reply, nor the write, nor the cache |
| Reset.Requested | api/src/routes/user/reset.rs:46-64 | a request for the address's account is live under the token for five minutes, if the account exists; nothing else changes |
| Reset.Post | api/src/routes/user/reset.rs:39-72 | always the same OK message, whether or not the address has an account; the cache is Requested |
| Reset.Issued | api/src/routes/user/reset.rs:80-110 | a password update is sent exactly for a valid password and a live token, to the requesting account, with only the password set |
| Reset.Reply | api/src/routes/user/reset.rs:74-124 | an invalid password gets its message; a dead token gets BadRequest naming it; otherwise OK, or InternalServerError when the update fails |
| Reset.Remaining | api/src/routes/user/reset.rs:82-101 | the token is spent exactly when the password passed its checks |
| Reset.Put | api/src/routes/user/reset.rs:74-124 | the route's reply, write and new cache are Reply, Issued and Remaining of the old state |
| Reset.PostThenPut | api/src/routes/user/reset.rs:47-107 | a PUT with a valid password within five minutes of the POST updates the password of the address's account and nothing else |
| Reset.UnknownEmailIssuesNothing | api/src/routes/user/reset.rs:47-64 | a POST for an unknown address leaves nothing to redeem |
| Reset.InvalidPasswordKeepsToken | api/src/routes/user/reset.rs:82-90 | a refused password does not spend the token |
| Reset.PutIsSingleUse | api/src/routes/user/reset.rs:89-101 | once a valid password was submitted with it, the token redeems nothing more |
| EmailConfirm.Issued | api/src/routes/user/email.rs:25-42 | an update is sent exactly for a connected caller with a live token; it sets only the e-mail, to the parked address, on the session's account |
| EmailConfirm.Reply | api/src/routes/user/email.rs:15-56 | a guard failure is passed on; a dead token gets BadRequest naming it; otherwise OK, or InternalServerError |
| EmailConfirm.Post | api/src/routes/user/email.rs:14-56 | the route's reply and write are Reply and Issued of the old state; it pops the token once the guard passed |
| EmailConfirm.EmailTokenIsSingleUse | api/src/routes/user/email.rs:25-33 | after one redemption the token redeems nothing, whatever the database answered |
| User.Rejection | api/src/routes/user.rs:45-83 | an empty payload is refused; otherwise an invalid username gives its message, else an invalid password its message, else an invalid e-mail its message; nothing is refused exactly when some field is given and all given fields are valid |
| User.Parked | api/src/routes/user.rs:76-93 | a valid new address is live under the e-mail token for five minutes; nothing else is parked |
| User.Issued | api/src/routes/user.rs:102-110 | an update is sent exactly for a connected caller with valid changes; it sets the given username, password and notification setting on the session's account, never the e-mail |
| User.Reply | api/src/routes/user.rs:35-123 | a guard failure is passed on; a refusal is BadRequest with its message; otherwise OK, or Conflict when the update fails |
| User.Put | api/src/routes/user.rs:35-123 | the route's reply, write and e-mail tokens are Reply, Issued and Parked of the old state |
| User.PutThenConfirmEmail | api/src/routes/user.rs:84-93 | confirming the parked address with its token, by the same session within five minutes, sets exactly the new address on exactly that account |
| User.LongEmailRefused | api/src/routes/user.rs:76-83 | a new address over 256 bytes is refused |
| SessionDraft.Unconnected | api/src/session.rs:26-43 | passes exactly without a cookie; the one known account is LoggedIn, any other value InvalidSession |
| SessionDraft.Connect | api/src/session.rs:45-66 | no cookie is NotLoggedIn; passes exactly for the one known account, with that id; any other value is InvalidSession |
| SessionDraft.GuardsPartition | api/src/session.rs:26-66 | no request passes both guards, and one fails both exactly when both answer InvalidSession |
| Pictures.Name | api/src/pictures.rs:24-37 | every name is a non-empty lower-case word |
| Pictures.FromStr | api/src/pictures.rs:17-24 | a parsed name is exactly the superposable's name |
| Pictures.FromParam | api/src/pictures.rs:42-47 | a parameter is accepted exactly when it is some superposable's name; a refused one is returned as the error |
| Pictures.NameParses | api/src/pictures.rs:17-24 | every name parses back to its superposable |
| Pictures.NameInjective | api/src/pictures.rs:24-37 | names are distinct |
| Pictures.AllIsComplete | api/src/pictures.rs:19-37 | the iteration lists each of the eight superposables exactly once |
| SuperposableRoute.Get | api/src/routes/pictures/superposable.rs:5-17 | always answers; the names of all superposables in declaration order, each once, each accepted as a path parameter |
| Js.Split | front/src/utils.js:4-5 | at least one piece, and no piece contains the separator |
| Js.JoinSplit | front/src/utils.js:4-5 | joining the pieces gives back the string |
| Js.SplitJoin | front/src/utils.js:4-5 | splitting a join of separator-free pieces gives back the pieces |
| Js.Trim | front/src/utils.js:7-8 | the result has no white space at either end, and is empty exactly when the string is all white space |
| Js.TrimIdempotent | front/src/utils.js:7-8 | trimming twice is trimming once |
| FrontUtils.Pair | front/src/utils.js:5-8 | a kept piece contributes a non-empty trimmed key and value |
| FrontUtils.PieceWithoutEqualsSkipped | front/src/utils.js:7 | a piece without '=' is skipped |
| FrontUtils.CookiesOf | front/src/utils.js:1-11 | every key of the parsed cookies is non-empty and trimmed |
| FrontUtils.GetCookies | front/src/utils.js:1-11 | the split-and-reduce loop gives the reduction CookiesOf, stopping at the first decoding that throws |
| FrontUtils.LaterDuplicateWins | front/src/utils.js:6-8 | a later piece with the same key overwrites the earlier value |
| FrontUtils.DroppedPieceKeepsEarlier | front/src/utils.js:7 | a skipped piece leaves every earlier value in place |
| FrontUtils.SecondEqualsDropped | front/src/utils.js:5 | text after a second '=' is not part of the value |
| FrontUtils.Lookup | front/src/utils.js:15 | an absent or empty value is undefined; a present one is parsed, and a parse that throws makes the call throw |
| FrontUtils.GetCookie | front/src/utils.js:13-16 | a throw of the parser is passed on; otherwise the lookup of the name |
| FrontUtils.Capitalize | front/src/utils.js:66-68 | the empty string stays empty; otherwise the upper-cased first character followed by the rest unchanged |
| FrontUtils.CapitalizeExample | front/src/utils.js:66-68 | "pepe" becomes "Pepe" and "Pepe" stays |
| FrontUtils.FormDataOf | front/src/utils.js:49-56 | the body never holds the password confirmation; the notifications field, and only it, is a boolean; text values are non-empty; every key comes from the form |
| FrontUtils.FormData | front/src/utils.js:49-56 | the loop builds FormDataOf of the entries |
| FrontUtils.FormLastValueWins | front/src/utils.js:53-54 | a later non-empty value of a field overwrites an earlier one |
| FrontUtils.FormEmptyValueKeepsEarlier | front/src/utils.js:53 | a later empty value does not erase an earlier one |
| FrontUtils.ApiErrorMessage | front/src/utils.js:70-82 | undefined and null throw a TypeError; the detailed form exactly when all five fields are truthy; else "Unknown error: " and the JSON for a truthy reply; else the bare message |
| FrontUtils.BareUnknownOnlyForFalsyPrimitives | front/src/utils.js:75-78 | the bare "Unknown error" is reached only for false, 0 and the empty string |
| FrontCookiesDraft.Step | front/src/cookies.js:5-8 | a piece without '=' throws a TypeError; otherwise keys stay trimmed |
| FrontCookiesDraft.CookiesOf | front/src/cookies.js:1-9 | every key of the parsed cookies is trimmed |
| FrontCookiesDraft.GetCookie | front/src/cookies.js:11-14 | a throw of the parser is passed on; otherwise the same lookup as the current parser |
| FrontCookiesDraft.PieceWithoutEqualsThrows | front/src/cookies.js:5-8 | any piece without '=' makes the whole parse throw |
| FrontCookiesDraft.EmptyCookieThrows | front/src/cookies.js:1-14 | the empty cookie string throws a TypeError, whatever the name asked for |
| FrontCookiesDraft.CurrentParserEmptyCookie | front/src/utils.js:1-16 | the current parser gives no cookies for it, and the lookup is undefined |
| FrontCookiesDraft.LaterDuplicateWins | front/src/cookies.js:6-9 | a later piece with the same trimmed key overwrites the earlier value |
| FrontCookiesDraft.BlankKeyKept | front/src/cookies.js:8 | a blank key is kept, as the empty key |
| FrontCookiesDraft.BlankKeySkippedByCurrentParser | front/src/utils.js:7 | the current parser skips the same piece |
| FrontCookiesDraft.StepsAgree | front/src/cookies.js:6-9 | on a piece the current parser keeps, both parsers take the same step |
| FrontCookiesDraft.AgreesOnWellFormedPieces | front/src/cookies.js:1-9 | where the current parser keeps every piece, both parsers give the same result |
| PepePost.RequestFor | front/src/pepe-post.js:235-243 | a press of the active button sends a DELETE without `like`; any other press sends a PUT with `like` set to the button pressed |
| PepePost.PostWidget.UpdateLikeCounts | front/src/pepe-post.js:210-231 | the new flags and counts are LikeTransition of the old ones; nothing else changes |
| PepePost.PostWidget.Like | front/src/pepe-post.js:234-258 | sends RequestFor the old state; on an ok answer the state is the press's transition; otherwise nothing changes |
| PepePost.PostWidget.SendComment | front/src/pepe-post.js:280-309 | nothing is sent for an empty input; otherwise the input is sent for the post; on an ok answer the input is cleared, and the count goes up by one only if the answer's body then reads; nothing else changes |
| PepePost.CountsMoveByAtMostOne | front/src/pepe-post.js:210-231 | each count moves by at most one per update |
| PepePost.TransitionIsExclusive | front/src/pepe-post.js:215-230 | after an update at most one button is active, whatever the state before |
| PepePost.PressKeepsOthers | front/src/pepe-post.js:234-254 | from a state with at most one active button, a press leaves everybody else's votes unchanged |
| PepePost.PressTwiceRestores | front/src/pepe-post.js:234-254 | pressing the same button twice restores the state, unless the other button was active |
| PepePost.SwitchToDislike | front/src/pepe-post.js:215-229 | pressing dislike on a liked post sends a PUT and moves one vote from like to dislike |
| PepePost.WithdrawVote | front/src/pepe-post.js:235-243 | pressing an active button sends a DELETE and withdraws exactly that vote |

## Left out

- The JSON layer is not modelled. That covers request bodies that fail to
  parse and the serde grammar. `Session.FromStr` accepts only the exact
  layout `Session.Display` writes; serde also accepts white space,
  reordered fields, escapes and upper-case hexadecimal.
- Uuid.Parse: reads only the hyphenated form, in either case. The uuid
  crate also reads the simple, braced and URN forms.
- Validation.Username: the Unicode extent of `\w` and `\d` is left as the
  parameter `CharClasses`. Only its ASCII part is fixed, by
  `AsciiCompatible`, for the examples.
- Login.SessionsAfter: the session duration is the exact day of 86400
  seconds. The floating-point conversion of the source is not modelled,
  and time is whole seconds on one clock for both the cache and the
  cookie's expiry.
- Concurrency is not modelled. Each cache operation holds the cache's
  mutex for its whole body, so it is one atomic step here. Requests are
  not interleaved.
- The mailer is a parameter, and the mails it sends are not modelled.
  This covers the reset, e-mail-change and (unsent) registration links.
- SQL is not modelled. Writes are returned as values, and whether the
  database accepts them is a boolean parameter. The periodic cleanup loop
  of `api/src/main.rs` is not part of this model; `Cache.Cache.Cleanup`
  is what it runs.
- Argon2 hashing and verification are a parameter `verify`. Random tokens
  and session ids are parameters.
- Rocket's private-cookie encryption is a parameter `seal`, and only in
  `Login.SealedCookieRefused`.
- SessionDraft.AccountCookie: a private "account_id" cookie that fails to
  decrypt reads as absent in the source; the model's cookies hold
  decrypted values, so that case is not modelled.
- Front end, JavaScript semantics:
  - Prototype keys such as `__proto__`, numbers other than integers,
    UTF-16 code units and `File` form values are not modelled.
  - `decodeURIComponent`, `JSON.parse`, `toUpperCase` and
    `JSON.stringify` are parameters.
- Front end, browser: the DOM, `fetch`, `alert` and the comment feed are
  not modelled. The API's ok answer is a boolean parameter, and so is
  whether the body of an ok answer reads as JSON.
- `forbidUnconnected`, `toggleConnectedEvent`, `createElement`,
  `asyncAlert` and `getSuperposables` of `front/src/utils.js` are not part
  of this model. They are DOM and network glue.
- FrontUtils.ApiErrorMessage: a throw of `JSON.stringify` (a cyclic
  reply) is not modelled.

## Findings

| source | as written | input that shows it | evidently intended | confidence | as-written member | corrected member |
|---|---|---|---|---|---|---|
| api/src/auth.rs:134-138 | the `Connected` and `IsConnected` guards read the "session" cookie with a plain `get`, but login stores it with `add_private`, which encrypts it, so the guards see base64 ciphertext that never parses as a session | any successful login followed by a request to a `Connected` route with the cookie it set: the guard answers BadRequest/InvalidSession | the guards read the cookie decrypted (`get_private`, as the guards of `api/src/session.rs` do), so the session a login stores opens them | high; not executed | Login.SealedCookieRefused | Login.LoginThenConnected |
