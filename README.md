# cake-fans API model

A Dafny model of the server side of cake-fans, a small Next.js site for
sharing pictures of cakes. The model covers five API routes:

- `POST /api/register` validates a name, e-mail and password. It refuses
  an e-mail that is already registered. It stores the user with a bcrypt
  hash of the password and a SHA-256 session token, and sets the `token`
  cookie for thirty days.
- `POST /api/login` checks an e-mail and password. It sets the cookie to
  the token stored at registration. It never issues a new token and never
  writes to the table.
- `GET /api/user` resolves the `token` cookie to the user holding that
  token.
- `POST /api/logout` expires the cookie (`Max-Age=0`) and does nothing
  else.
- `GET /api/cakes` returns one page of the cake feed, newest first, with
  page metadata.

The state is the `user` table, `UserTable.Db`, plus the browser's `token`
cookie. Each handler is a pure function from a request and that state to a
response (status, JSON body, `Set-Cookie` header). Register also returns the
new table. The class `App.Site` holds the table and the cookie as fields.
Its `Register`, `Login` and `Logout` methods update them in place and are
proved equal to the handler functions. `Login` and `Logout` may modify only
the cookie. How the browser applies a `Set-Cookie` header is
`Http.StoreCookie`, after RFC 6265: by section 5.2.2 a `Max-Age` of zero or
less expires the cookie at once, so the browser drops it.

Outside code is passed in as values of `External.Libs`: bcrypt `hash` and
`compare`, the hex SHA-256 digest, and yup's e-mail check. The model
assumes two facts about them (`Libs.Sound`): `compare(pw, hash(pw))` holds,
and a digest has 64 characters. `Date.now()` is the parameter `now`.

Validation follows yup with `abortEarly: false`. Every failing rule adds its
message. Fields come in declaration order, and the rules of a field in the
order they are written. An absent field fails only `required`. A present
empty string fails `required` and every other rule that rejects it, except
`email()`, which skips empty strings. `min` and `max` compare JavaScript's
`.length`, which counts UTF-16 code units: `Text.Utf16Length` counts a
character beyond U+FFFF twice. `max(50)` accepts a name of length 50,
although its message says "less than 50".

The register handler turns its messages into an object with
`curr.split(' at ')`. Four of its own messages contain the word "at":
"must be at least" and "must contain at least". So they are keyed by their
first words, with the rest as the value. The two password-pattern messages
both land on the key "Password must contain". When a password has neither an
upper-case letter nor a digit, the response reports only the digit rule.
`Register.WeakPasswordReportsDigitRuleOnly` proves this. The model keeps
this behaviour as written.

Login does not replace the stored token. Logout does not clear it, so a
client that kept the old cookie value is still recognised.

## Model

| member | source | states |
|---|---|---|
| Text.IndexOf | pages/api/register.ts:82 | the result is the first index at or after `from` where the separator occurs, and `None` exactly when there is none |
| Text.Split | pages/api/register.ts:82 | `curr.split(' at ')` always has a first piece, and that piece is a prefix of the message |
| Text.JoinSplit | pages/api/register.ts:82 | joining the pieces of `split(' at ')` with the separator gives back the message |
| Text.SplitPiecesFree | pages/api/register.ts:82 | no piece of a split contains the separator |
| Text.Utf16Length | pages/api/register.ts:12-13 | JavaScript's `.length`, the count yup's `min` and `max` compare, lies between the number of characters and twice that |
| Text.Utf16LengthBmp | pages/api/register.ts:12-13 | `.length` equals the number of characters exactly when no character lies beyond U+FFFF |
| Text.DecimalString | pages/api/register.ts:48 | `Date.now().toString()` is a non-empty string of decimal digits with no leading zero |
| Text.DecimalRoundTrip | pages/api/register.ts:48 | the timestamp's decimal string reads back as the timestamp |
| Text.DecimalStringInjective | pages/api/register.ts:48-49 | distinct timestamps render as distinct strings |
| Http.StoreCookie | pages/api/logout.ts:11 | a `token` header with `Max-Age` of zero or less removes the cookie, any other `token` header stores its value, and other headers leave it alone |
| Http.StoreCookieIdempotent | pages/api/logout.ts:11 | applying the same header twice leaves the cookie as applying it once, so two logouts are one |
| Schema.RegisterErrors | pages/api/register.ts:9-22 | no message is reported exactly when the name's UTF-16 length is 2 to 50, the e-mail is present and well formed, and the password's UTF-16 length is 6 or more with an upper-case letter and a digit |
| Schema.LoginErrors | pages/api/login.ts:8-17 | no message is reported exactly when the e-mail is present and well formed and the password's UTF-16 length is 6 or more, with no upper-case or digit rule |
| Schema.SurrogatePairNameAccepted | pages/api/register.ts:10-13 | a name of one character beyond U+FFFF has length 2 and passes every name rule |
| Schema.RegisterValidIsLoginValid | pages/api/login.ts:8-17 | credentials accepted by the register schema are accepted by the login schema |
| Schema.QueryErrors | pages/api/cakes.ts:7-10 | no message is reported exactly when `page` (default 1) is positive and `limit` (default 10) is in 1..100; an empty query is valid |
| UserTable.FindFirst | pages/api/user.ts:21-28 | a found row is the earliest row satisfying the condition; `None` means no row satisfies it (the lookup behind `findUnique` by e-mail and `findFirst` by token) |
| UserTable.FindByEmailUnique | pages/api/login.ts:34-36 | with unique e-mails the lookup returns the one row holding the e-mail |
| UserTable.FindByTokenAppend | pages/api/user.ts:21-28 | appending a row changes the token lookup only when no earlier row held the token |
| UserTable.Create | pages/api/register.ts:56-63 | creating a row with an e-mail not in the table appends exactly that row and keeps e-mails unique and ids fresh |
| Register.ErrorEntry | pages/api/register.ts:82-83 | a message without `' at '` maps to itself |
| Register.ErrorEntryAtSeparator | pages/api/register.ts:82-83 | a message with `' at '` is keyed by the text before its first occurrence; the value is the text between the first and the second occurrence (all of the rest when there is no second), or the whole message when that text is empty |
| Register.ErrorMap | pages/api/register.ts:81-85 | the object `reduce` returns has at most one key per message, and the last message's entry always stands |
| Register.BuildErrorMap | pages/api/register.ts:81-85 | the `reduce` loop builds exactly the error map of the messages |
| Register.ErrorMapKeys | pages/api/register.ts:81-85 | a key is in the error map exactly when some message splits to it |
| Register.ErrorMapLastWins | pages/api/register.ts:81-85 | a key holds the value of the last message that splits to it; later messages overwrite earlier ones |
| Register.ErrorMapPlainMessage | pages/api/register.ts:83 | a message without `' at '` that no later message overwrites is reported under itself |
| Register.PasswordRuleMessagesCollide | pages/api/register.ts:20-21 | both password-pattern messages split to the key "Password must contain" |
| Register.WeakPasswordReportsDigitRuleOnly | pages/api/register.ts:77-86 | for a password with no upper-case letter and no digit, the error map's "Password must contain" entry is the digit rule's |
| Register.Handle | pages/api/register.ts:24-75 | non-POST gives 405 with no change; the result is 201 exactly for a valid body with an unregistered e-mail; every other outcome leaves the table alone and sets no cookie; invalid bodies get 400 with the error map; a taken e-mail gets 400 "Email already registered"; a 201 appends one row with a fresh id, the submitted name and e-mail, `hash(password)` and token `sha256(now + email + name)`, sets that token with `Max-Age=2592000`, and returns only id, name and e-mail; e-mails stay unique |
| Login.Authenticate | pages/api/login.ts:34-46 | a user is returned only if it is in the table, has the e-mail, and its hash matches the password; with unique e-mails, none is returned exactly when no user with the e-mail has a matching hash |
| Login.AuthenticateOwnPassword | pages/api/login.ts:34-46 | with unique e-mails, a stored user whose hash matches the password is the one authenticated |
| Login.Handle | pages/api/login.ts:19-67 | non-POST gives 405; an invalid body gives 400 "Validation failed" with the messages; the result is 200 exactly when the credentials authenticate, and then the cookie carries that user's stored token and the body only id, name and e-mail; every failed credential check gives the same 401; no failure sets a cookie |
| Login.UnknownEmailLooksLikeWrongPassword | pages/api/login.ts:38-46 | an unknown e-mail and a wrong password for a known e-mail produce the identical 401 response |
| CurrentUser.Handle | pages/api/user.ts:6-34 | non-GET gives 405; an absent or empty token gives 401 "Unauthorized"; the result is 200 exactly when some row holds the token, and then the body is that row's id, name and e-mail; no holder gives 401 "User not found"; no cookie is set |
| Logout.Handle | pages/api/logout.ts:3-13 | non-POST gives 405 and leaves the cookie; POST gives 200 "Logged out successfully" and, whatever the cookie was, removes it |
| Cakes.Window | pages/api/cakes.ts:28-30 | the page holds at most `take` rows, exactly the rows from `skip` on, and none when `skip` is past the end |
| Cakes.CeilDiv | pages/api/cakes.ts:51 | `totalPages` is the least count of pages of `limit` rows that holds every row |
| Cakes.Views | pages/api/cakes.ts:34-41 | each returned cake is its row with the owner cut down to id and name |
| Cakes.Handle | pages/api/cakes.ts:12-54 | non-GET gives 405; a bad query gives 400 with the messages; otherwise 200 with exactly `min(limit, total - (page - 1) * limit)` cakes (none past the end), the i-th being row `(page - 1) * limit + i` of the newest-first feed, an empty page past the end, `currentPage` and `pageSize` echoing the query, `totalItems` the number of cakes and `totalPages` its ceiling division by `limit` |
| Cakes.FirstPagesArePrefix | pages/api/cakes.ts:26-33 | pages 1 to k together are the first `k * limit` cakes in feed order |
| Cakes.PagesCoverFeed | pages/api/cakes.ts:44-52 | pages 1 to `totalPages` together are the whole feed, each cake once |
| Cakes.PageNonEmptyIff | pages/api/cakes.ts:26-51 | a page has cakes exactly when its number is at most `totalPages` |
| Cakes.EarlierPagesAreNewer | pages/api/cakes.ts:28-33 | in a newest-first feed every cake on a page is at least as new as every cake on a later page |
| Cakes.FirstPageStartsNewest | pages/api/cakes.ts:26-33 | page 1 of a non-empty feed starts with a newest cake |
| Session.DuplicateRegistrationRefused | pages/api/register.ts:40-46 | a second registration whose body is valid, with an e-mail already registered, gives 400 "Email already registered" and changes nothing |
| Session.RegisterThenLogin | pages/api/login.ts:34-58 | after a successful registration, login with the same e-mail and password returns 200 with the new user and sets the token registration set |
| Session.RegisterThenCurrentUser | pages/api/user.ts:14-34 | the cookie set by registration resolves to the new user, provided no earlier user holds the same token |
| Session.LoginThenCurrentUser | pages/api/user.ts:14-34 | the cookie set by login resolves to the logged-in user, provided the stored token is non-empty and no other user holds it |
| Session.LogoutThenCurrentUser | pages/api/user.ts:14-18 | after logout the user handler answers 401 "Unauthorized" |
| App.Site.Register | pages/api/register.ts:24-94 | the in-place handler leaves the table, the next id and the response as `Register.Handle` says, keeps e-mails unique, and the cookie as the browser stores the header |
| App.Site.Login | pages/api/login.ts:19-68 | the in-place handler answers as `Login.Handle` and may change only the cookie, never the table |
| App.Site.Me | pages/api/user.ts:6-34 | on the site's own table and cookie: no cookie is set; non-GET gives 405; an absent or empty cookie gives 401 "Unauthorized"; a non-empty token no row holds gives 401 "User not found"; 200 exactly when some row holds the cookie's token, with that row's id, name and e-mail |
| App.Site.Logout | pages/api/logout.ts:3-13 | the in-place handler answers as `Logout.Handle`, drops the cookie on POST, and never touches the table |

## Left out

- The 500 branches of register, login, user and cakes depend on exceptions thrown by the database or a library; the model has no failing store.
- bcrypt's random salt and cost factor: `hash` is a function of the password alone, and only `compare(pw, hash(pw))` is assumed.
- yup's e-mail regular expression: `isEmail` is an uninterpreted predicate.
- Request values that are not strings (register, login) or not integers (cakes): yup's type casting is not modelled, and `Math.ceil` is integer ceiling division.
- The race between the e-mail lookup and the insert: each request runs atomically, and the unique constraint is the invariant `UserTable.EmailsUnique`.
- Cookie expiry over time: the 30-day `Max-Age` is recorded but the clock does not advance; `Path`, `HttpOnly` and `SameSite` are recorded and not interpreted. The header text is not rendered.
- How the database assigns user ids: the Prisma schema is not part of this model; ids come from a counter.
- The order of cakes with equal `createdAt`: the feed is given already sorted by the database.
- The other routes (single cake, comments, cake creation and deletion) and all page components are not part of this model.
- CurrentUser.Handle: states that the returned user holds the token, not which of several holders `findFirst` picks, because the query leaves that order open.
