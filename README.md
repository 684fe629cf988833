# Dispatch backend route handlers, modelled in Dafny

This project models the Express route handlers of a freight-dispatch backend and the two
middlewares in front of them. Clients create dispatch requests (a pickup stop, a dropoff
stop, vehicle, cargo and payment details). They list and page them, and dispatchers move
them through their statuses. Users keep a shared address book of places, scoped by company.
Accounts sign up, log in with a bearer token, and reset or change their passwords.

Each handler becomes a function over an in-memory store, or a method on a store class.
It answers with a `Result`: a success value, or an error tag that maps to the HTTP status
the route sends.

- `wrappers.dfy` (`Wrappers`): `Option` and `Result`.
- `text.dfy` (`Text`): the JavaScript string operations the handlers use. These are
  `trim` (the ECMAScript white-space set), ASCII `toUpperCase`/`toLowerCase`, `startsWith`
  and substring search. It also has JavaScript truthiness of a string field (`Given`) and
  the code-point order of text columns.
- `query.dfy` (`Query`): what the store does with `where`, `orderBy: { createdAt: "desc" }`,
  `skip` and `take`. It also holds the table rule every store keeps: ids positive, below the
  next id and ascending, and creation times non-decreasing in storage order. Lookup by id
  is here too.
- `middleware.dfy` (`Middleware`): `authMiddleware` (bearer header → `req.user`) and
  `requireRole`. One request in flight is an `Exchange` object. Its `user`, reply status and
  `next()` count are the fields the middleware updates.
- `accounts.dfy` (`Accounts`): the e-mail pattern, sign-up, login, find-id,
  reset-password and change-password. The user table is the `UserStore` class.
- `requests.dfy` (`Requests`): request creation, the filtered and paged list, the recent
  list, detail and status update. The request table is the `RequestStore` class.
- `address_book.dfy` (`AddressBook`): the scoped, searchable list, create, the owner-only
  merge update and delete, and the company list. The entry table is the `EntryStore` class.

Stores are sequences in insertion order. Ids ascend along them and creation times never
decrease, so "newest first" is the matching rows read from the back (`Query.NewestFirst`).
bcrypt and JWT stay abstract. A new password hash is the parameter `hashed`.
`bcrypt.compare` is a function parameter `compare`. `jwt.sign` and `jwt.verify` are the
parameters `sign` and `verify`. Query strings and path parameters arrive already parsed:
`Number`/`parseInt` results are `Option<int>` (None for NaN or absent), and dates are whole
days since the Unix epoch. The clock is the parameter `now` of each create operation.

## Model

| member | source | states |
|---|---|---|
| `Text.Trim` | dispatch-backend/src/routes/authRoutes.ts:29 | `trim()` leaves no white space at either end, yields the empty string exactly for a blank input, and changes no already-trimmed string |
| `Text.TrimContent` | dispatch-backend/src/routes/authRoutes.ts:29 | the trimmed string is the input with a blank prefix and a blank suffix removed, so its characters are the input's own, in place |
| `Text.TrimStart` | dispatch-backend/src/middleware/authMiddleware.ts:30 | the leading part dropped is all white space and the rest starts with a non-space |
| `Text.TrimEnd` | dispatch-backend/src/middleware/authMiddleware.ts:30 | the trailing part dropped is all white space and the rest ends with a non-space |
| `Text.TrimIdempotent` | dispatch-backend/src/routes/addressBookRoutes.ts:28-32 | trimming twice equals trimming once |
| `Text.ToUpper` | dispatch-backend/src/routes/requestRoutes.ts:119-120 | `toUpperCase` keeps the length and upper-cases each ASCII letter in place |
| `Text.ToLower` | dispatch-backend/src/routes/authRoutes.ts:54 | `toLowerCase` keeps the length and lower-cases each ASCII letter in place |
| `Text.ToLowerNormalises` | dispatch-backend/src/routes/authRoutes.ts:54 | a lower-cased e-mail holds no upper-case letter, and lower-casing again changes nothing |
| `Text.ToUpperIgnoresCase` | dispatch-backend/src/routes/requestRoutes.ts:119-122 | spellings that differ only in case have one upper-case form, and upper-casing is idempotent |
| `Text.ToLowerIgnoresCase` | dispatch-backend/src/routes/authRoutes.ts:111 | lower-casing an upper-cased string gives the lower-case form of the original |
| `Text.LessIrreflexive` | dispatch-backend/src/routes/addressBookRoutes.ts:242 | no company name sorts before itself |
| `Text.LessTransitive` | dispatch-backend/src/routes/addressBookRoutes.ts:242 | the ascending text order is transitive |
| `Text.LessTotal` | dispatch-backend/src/routes/addressBookRoutes.ts:242 | any two different names are ordered one way or the other |
| `Text.LessAsymmetric` | dispatch-backend/src/routes/addressBookRoutes.ts:242 | two names are never ordered both ways |
| `Query.NewestFirst` | dispatch-backend/src/routes/requestRoutes.ts:239-241 | the result holds only stored rows that satisfy the filter and is no longer than the store |
| `Query.NewestFirstComplete` | dispatch-backend/src/routes/requestRoutes.ts:239-241 | every stored row that satisfies the filter is returned |
| `Query.NewestFirstCount` | dispatch-backend/src/routes/requestRoutes.ts:238-255 | each row that satisfies the filter is returned as many times as it is stored and no other row is returned, so the result's length is the number of matching rows |
| `Query.NewestFirstReversesOrder` | dispatch-backend/src/routes/addressBookRoutes.ts:65-68 | of two matching rows, the one stored later is returned earlier |
| `Query.NewestFirstDescending` | dispatch-backend/src/routes/requestRoutes.ts:241 | with creation times ascending in the store, the result's creation times descend |
| `Query.NewestFirstStrictlyDescending` | dispatch-backend/src/routes/requestRoutes.ts:241 | with creation times strictly ascending in the store, the result's creation times strictly descend, so `orderBy` has no ties to break |
| `Query.NewestFirstAgree` | dispatch-backend/src/routes/requestRoutes.ts:239-254 | two filters that agree on every row select the same rows |
| `Query.Window` | dispatch-backend/src/routes/requestRoutes.ts:242-243 | `skip`/`take` return the rows from position `skip` on, at most `take` of them, and exactly `min(take, n - skip)` when `skip < n` |
| `Query.NextPage` | dispatch-backend/src/routes/requestRoutes.ts:235-243 | the rows before offset `skip` followed by the window at `skip` are the rows before offset `skip + take` |
| `Query.PagesArePrefix` | dispatch-backend/src/routes/requestRoutes.ts:233-243 | pages 1 to k read in turn give the first k·size rows, with no gaps or repeats |
| `Query.PagesCoverAll` | dispatch-backend/src/routes/requestRoutes.ts:233-243 | enough pages give every row |
| `Query.StoredAppend` | dispatch-backend/src/routes/requestRoutes.ts:145 | inserting a row with the next id, created no earlier than the last, keeps the table rule |
| `Query.StoredReplace` | dispatch-backend/src/routes/requestRoutes.ts:325-328 | overwriting a row while keeping its id and creation time keeps the table rule |
| `Query.StoredRemove` | dispatch-backend/src/routes/addressBookRoutes.ts:221 | removing a row keeps the table rule |
| `Query.StoredRemoveMembers` | dispatch-backend/src/routes/addressBookRoutes.ts:221 | removing the row at k removes exactly the row with its id and keeps every other |
| `Query.IndexOf` | dispatch-backend/src/routes/requestRoutes.ts:279-281 | `findUnique` by id: a found position holds that id, and None means no row has it |
| `Query.IndexOfUnique` | dispatch-backend/src/routes/requestRoutes.ts:279-281 | under the table rule the found row is the only one with that id |
| `Middleware.ReplaceFirst` | dispatch-backend/src/middleware/authMiddleware.ts:30 | `replace` with a string pattern swaps a leading occurrence for the replacement and leaves a string without the pattern unchanged |
| `Middleware.ExtractToken` | dispatch-backend/src/middleware/authMiddleware.ts:21-30 | a token is extracted exactly when the header is present and starts with the case-sensitive "Bearer "; it is the rest of the header, trimmed |
| `Middleware.BearerRoundTrip` | dispatch-backend/src/middleware/authMiddleware.ts:24-30 | a header built as "Bearer " + token yields that token back |
| `Middleware.SchemeIsCaseSensitive` | dispatch-backend/src/middleware/authMiddleware.ts:24 | "bearer " and "BEARER " headers are refused |
| `Middleware.Exchange.constructor` | dispatch-backend/src/middleware/authMiddleware.ts:10-12 | a request starts with no user, no reply and no `next()` call |
| `Middleware.AuthMiddleware` | dispatch-backend/src/middleware/authMiddleware.ts:21-52 | a bad header or a refused token gives 401 with `req.user` and the `next()` count unchanged; an accepted token sets `req.user` to its id and role and calls `next()` once, writing no reply |
| `Middleware.RequireRoleNeedsUser` | dispatch-backend/src/middleware/roleMiddleware.ts:8 | a request without a user is refused whatever the roles |
| `Middleware.RequireRoleEmptyRejectsAll` | dispatch-backend/src/middleware/roleMiddleware.ts:4-8 | with no roles listed every request is refused |
| `Middleware.RequireRoleMembership` | dispatch-backend/src/middleware/roleMiddleware.ts:8-14 | a user passes exactly when their role is listed, and listing more roles never refuses a passing user |
| `Middleware.RoleGuard` | dispatch-backend/src/middleware/roleMiddleware.ts:5-14 | a passing request reaches `next()` once with no reply; any other gets 403 and no `next()`; `req.user` is untouched |
| `Accounts.LowerKeepsEmailChar` | dispatch-backend/src/routes/authRoutes.ts:15 | changing a character's case keeps it inside `[^\s@]` |
| `Accounts.EmailCaseInsensitive` | dispatch-backend/src/routes/authRoutes.ts:15 | an e-mail the pattern accepts stays accepted when lower- or upper-cased |
| `Accounts.EmailFromLower` | dispatch-backend/src/routes/authRoutes.ts:15 | a string whose lower-cased form the pattern accepts is accepted itself |
| `Accounts.EmailShape` | dispatch-backend/src/routes/authRoutes.ts:15 | an accepted e-mail has no white space and one '@', so `trim` leaves it alone |
| `Accounts.EmailExamples` | dispatch-backend/src/routes/authRoutes.ts:15 | the pattern accepts "t@example.com" and refuses a missing dot, a missing local part and a space |
| `Accounts.CheckSignup` | dispatch-backend/src/routes/authRoutes.ts:29-49 | sign-up accepts exactly a name whose trimmed form has at least two characters, an e-mail the pattern accepts and a password of at least eight characters; a refusal is one of the three validation errors, and the weak-password error comes exactly when the name and e-mail pass and the password is missing or shorter than eight |
| `Accounts.SignupChecks` | dispatch-backend/src/routes/authRoutes.ts:29-57 | sign-up checks the name first and the e-mail second: a bad name is reported whatever else is sent, and a bad e-mail whatever the password; on success the stored name is trimmed and at least two long, the stored e-mail is the lower-cased input, accepted by the pattern and free of upper-case letters, and the password has at least eight characters |
| `Accounts.FindByEmail` | dispatch-backend/src/routes/authRoutes.ts:110-112 | a found row has that e-mail; None means no row has it |
| `Accounts.FindById` | dispatch-backend/src/routes/authRoutes.ts:287-289 | the lookup by primary key, through the shared `findUnique` position search: a found row has that id; None means no row has it |
| `Accounts.FindByEmailUnique` | dispatch-backend/src/routes/authRoutes.ts:110-112 | with unique e-mails the lookup finds the one row that has the e-mail |
| `Accounts.FindByEmailAppend` | dispatch-backend/src/routes/authRoutes.ts:51-57 | after a new e-mail's row is appended, looking it up finds that row |
| `Accounts.Login` | dispatch-backend/src/routes/authRoutes.ts:89-162 | a missing or malformed e-mail gives 400 first, then a missing password 400; with a well-formed e-mail and a password given, every failure is the single wrong-credentials error; a success is the session of a stored account with the lower-cased, trimmed e-mail and a matching hash, its token signed over that account's id and role |
| `Accounts.LoginOutcome` | dispatch-backend/src/routes/authRoutes.ts:110-155 | for well-formed input, login fails exactly when no account with the lower-cased e-mail has a matching hash; unknown e-mail and wrong password give the same error; a success signs the token over exactly that account's id and role |
| `Accounts.LoginFinds` | dispatch-backend/src/routes/authRoutes.ts:110-155 | when the lookup by lower-cased, trimmed e-mail finds an account whose hash matches, login succeeds with a token signed over that account's id and role and its profile without the hash |
| `Accounts.SignupThenLogin` | dispatch-backend/src/routes/authRoutes.ts:51-155 | a new account logs in with its e-mail typed in any letter case (any string with the same lower-case form), and the middleware then sets `req.user` to its id and the default role |
| `Accounts.EmailKey` | dispatch-backend/src/routes/authRoutes.ts:97-112 | any spelling of an accepted e-mail with the same lower-case form is accepted, and its login lookup key is the lower-cased e-mail sign-up stored |
| `Accounts.UpperCaseEmailKey` | dispatch-backend/src/routes/authRoutes.ts:110-112 | an accepted e-mail typed in upper case is still accepted, and lower-casing and trimming it gives the lower-cased original, the key sign-up stored |
| `Accounts.UnsetSecretRefusesLoginTokens` | dispatch-backend/src/routes/authRoutes.ts:12 | as written, with `JWT_SECRET` unset a token from login is refused by the middleware |
| `Accounts.SharedSecretAdmitsLoginTokens` | dispatch-backend/src/middleware/authMiddleware.ts:14 | with the middleware falling back to the login route's secret, a login token passes the middleware and yields that account's id and role, whether or not `JWT_SECRET` is set |
| `Accounts.UsersNamed` | dispatch-backend/src/routes/authRoutes.ts:176-183 | the hits are exactly the accounts with that exact name, one hit per such account: their number is the number of rows carrying the name |
| `Accounts.UsersNamedSplit` | dispatch-backend/src/routes/authRoutes.ts:176-183 | the hits of a table split in two are the hits of the first part followed by those of the second, so hits keep table order |
| `Accounts.FindId` | dispatch-backend/src/routes/authRoutes.ts:170-194 | a missing name gives 400 and no match 404; the reply succeeds exactly when some account has the name; then `count` equals the number of hits and of accounts with that name, and the hits are those accounts in table order |
| `Accounts.ResetTarget` | dispatch-backend/src/routes/authRoutes.ts:212-238 | reset checks run in order: missing field 400, short password 400, unknown exact e-mail 404; the name-mismatch 400 happens exactly when the account with that e-mail has another name, and success exactly when it has that name; a success is that account |
| `Accounts.ResetNeedsStoredSpelling` | dispatch-backend/src/routes/authRoutes.ts:224-232 | the reset lookup does not lower-case, so an e-mail typed with an upper-case letter finds no account |
| `Accounts.ChangeTarget` | dispatch-backend/src/routes/authRoutes.ts:272-307 | change checks run in order: missing field 400, short password 400, missing user 404; the wrong-password 400 happens exactly when the caller's hash does not match, and success exactly when it does; a success is the caller's account |
| `Accounts.WithPasswordHash` | dispatch-backend/src/routes/authRoutes.ts:242-247 | only the password hash of the account with that id changes; every other field and row stays |
| `Accounts.AppendKeepsValid` | dispatch-backend/src/routes/authRoutes.ts:51-57 | a new row with the next id and an unused lower-case e-mail keeps ids ascending and e-mails unique |
| `Accounts.SignupKeepsValid` | dispatch-backend/src/routes/authRoutes.ts:29-57 | a row built from values that passed the sign-up checks, with the next id and an e-mail not yet taken, keeps ids ascending and e-mails unique and lower-case |
| `Accounts.UserStore.constructor` | dispatch-backend/src/routes/authRoutes.ts:50 | the user table starts empty |
| `Accounts.UserStore.Signup` | dispatch-backend/src/routes/authRoutes.ts:20-83 | a failed check or a taken e-mail (409) changes nothing; otherwise exactly one row is appended with the next id, the trimmed name, the normalised e-mail, the given hash and the default role, and the reply carries no hash |
| `Accounts.UserStore.Insert` | dispatch-backend/src/routes/authRoutes.ts:51-57 | `prisma.user.create` for an unused lower-case e-mail appends exactly one row with the next id and the default role, keeping the table rule and unique e-mails |
| `Accounts.UserStore.ResetPassword` | dispatch-backend/src/routes/authRoutes.ts:204-259 | only a successful reset changes anything, and then only that account's hash; the reply is its e-mail |
| `Accounts.UserStore.ChangePassword` | dispatch-backend/src/routes/authRoutes.ts:262-329 | only a successful change replaces the caller's hash; nothing else changes |
| `Requests.MethodNamed` | dispatch-backend/src/routes/requestRoutes.ts:110-117 | a recognised name is the spelling of the method it returns |
| `Requests.ParseMethod` | dispatch-backend/src/routes/requestRoutes.ts:119-131 | an accepted method's name is the upper-cased input |
| `Requests.ParseMethodIgnoresCase` | dispatch-backend/src/routes/requestRoutes.ts:110-131 | a method is accepted as m exactly when its upper-cased form is m's name; lower-casing the input changes nothing |
| `Requests.ParseStatus` | dispatch-backend/src/routes/requestRoutes.ts:310-319 | a recognised status is spelled exactly as given |
| `Requests.StatusNamesRoundTrip` | dispatch-backend/src/routes/requestRoutes.ts:310-323 | statuses and their names correspond one to one; "pending" and "ALL" are not statuses |
| `Requests.Truthy` | dispatch-backend/src/routes/requestRoutes.ts:154 | `Boolean(...)` is false exactly for undefined, null, false, 0 and the empty string |
| `Requests.TruthyCases` | dispatch-backend/src/routes/requestRoutes.ts:154 | `Boolean(...)` makes undefined, null, false, 0 and "" false and makes `true`, -1 and "false" true |
| `Requests.UpperOrNull` | dispatch-backend/src/routes/requestRoutes.ts:133-143 | a given value is stored upper-cased and a falsy one as null, with no membership check |
| `Requests.ValidateCreate` | dispatch-backend/src/routes/requestRoutes.ts:84-186 | no user gives 401, then an incomplete stop 400; the unknown-pickup-method 400 comes exactly when the caller and both stops are there and the pickup method is unknown, and the unknown-dropoff-method 400 exactly when the pickup method is known and the dropoff one is not; success exactly when none of these applies; on success the creator is the caller, the methods are the upper-cased inputs, places and addresses are kept, the flags are the truthiness of the inputs, detail, contact and time fields pass through, the request type is the upper-cased input or "NORMAL", vehicle group and payment method are the upper-cased input or null, and tonnage, body type, cargo, note, distance and price pass through or are null when their object is missing |
| `Requests.CreateIgnoresMethodCase` | dispatch-backend/src/routes/requestRoutes.ts:119-131 | bodies whose methods differ only in case produce the same outcome |
| `Requests.Summaries` | dispatch-backend/src/routes/requestRoutes.ts:243-252 | the reply keeps one summary per row, in order |
| `Requests.BuildListWhere` | dispatch-backend/src/routes/requestRoutes.ts:214-230 | the `where` built admits a row exactly when its status matches (no status filter for an absent, empty or "ALL" value) and its creation day lies between `from` and `to`, both included |
| `Requests.DayBounds` | dispatch-backend/src/routes/requestRoutes.ts:224-229 | a time is at or after 00:00:00.000Z of a day exactly when its day is that day or later, and at or before 23:59:59.999Z exactly when its day is that day or earlier |
| `Requests.ClampPage` | dispatch-backend/src/routes/requestRoutes.ts:233-234 | page numbers are at least 1: a positive value is kept, absent, NaN or 0 gives the default, and a negative value gives 1 |
| `Requests.PageSizeQuirk` | dispatch-backend/src/routes/requestRoutes.ts:234 | a page size of 0 falls back to 20 while -5 becomes 1 |
| `Requests.ListRequests` | dispatch-backend/src/routes/requestRoutes.ts:204-262 | an unknown status name is the only failure; otherwise page and size are clamped, the items are that page of the matching requests newest first, `total` counts the matching requests under the same filter, and there are at most `pageSize` and at most `total` items; the requests paged through are exactly the stored requests passing the status and date filter, each once |
| `Requests.ListMatchesCounted` | dispatch-backend/src/routes/requestRoutes.ts:238-255 | the requests the list pages through are the stored requests that pass the status and date filter, each exactly once, so `total` is their number |
| `Requests.FindPage` | dispatch-backend/src/routes/requestRoutes.ts:235-255 | `findMany` with `skip = (page - 1) * pageSize` and `take = pageSize` returns the summaries of that window of the matching rows newest first, at most `pageSize` of them, and `count` gives the number of matching rows (by `Query.NewestFirstCount`, the rows satisfying the `where`, each once) |
| `Requests.ListPagesCoverMatches` | dispatch-backend/src/routes/requestRoutes.ts:233-255 | successive pages of the list give the matching requests from the newest on, without gaps or repeats |
| `Requests.ListNewestFirst` | dispatch-backend/src/routes/requestRoutes.ts:239-243 | list items are ordered by creation time, descending |
| `Requests.Recent` | dispatch-backend/src/routes/requestRoutes.ts:18-54 | no user or user id 0 gives 401; the limit is the parsed value when it is in 1..50 and 5 otherwise; the reply is the caller's newest requests, at most `limit` of them, all created by the caller |
| `Requests.GetDetail` | dispatch-backend/src/routes/requestRoutes.ts:272-287 | a non-numeric id gives 400, an unknown id gives 404, and success exactly when a stored request has the id; then it is that request |
| `Requests.RequestStore.constructor` | dispatch-backend/src/routes/requestRoutes.ts:145 | the request table starts empty |
| `Requests.RequestStore.Create` | dispatch-backend/src/routes/requestRoutes.ts:78-197 | a refused body changes nothing; an accepted one appends exactly one request with the next id, status PENDING and the current time |
| `Requests.RequestStore.UpdateStatus` | dispatch-backend/src/routes/requestRoutes.ts:297-342 | checks run in order: non-numeric id, missing status, unknown status (all 400), unknown request 404, and all of them change nothing; success exactly when the id, a known status and the request are all there; then only that request's status is overwritten, whatever it was |
| `Requests.UpdateStatusOnlyThatRow` | dispatch-backend/src/routes/requestRoutes.ts:325-328 | a status update touches only the row with that id, and only its status |
| `AddressBook.ParseEntryType` | dispatch-backend/src/routes/addressBookRoutes.ts:93 | a string is an entry type exactly when it is the name of that type: only "PICKUP", "DROPOFF" and "BOTH" are accepted, each as itself |
| `AddressBook.BuildEntryWhere` | dispatch-backend/src/routes/addressBookRoutes.ts:27-63 | the `where` built admits an entry exactly when it matches the trimmed search term (if any) in one of its five text columns and lies in the caller's scope |
| `AddressBook.WhereMeansVisible` | dispatch-backend/src/routes/addressBookRoutes.ts:27-63 | a `where` whose search part is the non-blank trimmed term, and whose company or owner part is set from the caller's role and company, admits exactly the visible entries |
| `AddressBook.ListEntries` | dispatch-backend/src/routes/addressBookRoutes.ts:13-77 | no user or an unknown caller gives 401; otherwise the entries visible to the caller, newest first |
| `AddressBook.NonAdminIsolation` | dispatch-backend/src/routes/addressBookRoutes.ts:55-63 | a non-admin sees only entries of accounts of their own company, or only their own entries when they have no company |
| `AddressBook.OwnEntriesVisible` | dispatch-backend/src/routes/addressBookRoutes.ts:48-63 | without a search term, callers always see the entries they created |
| `AddressBook.AdminSeesAll` | dispatch-backend/src/routes/addressBookRoutes.ts:50-54 | an admin without search term or company filter sees every entry |
| `AddressBook.SearchSound` | dispatch-backend/src/routes/addressBookRoutes.ts:38-46 | with a non-blank term, every listed entry holds the trimmed term in one of the five columns |
| `AddressBook.EntriesNewestFirst` | dispatch-backend/src/routes/addressBookRoutes.ts:65-68 | the list is ordered by creation time, descending |
| `AddressBook.OrNull` | dispatch-backend/src/routes/addressBookRoutes.ts:107-109 | an optional field is stored when given and as null when empty or missing |
| `AddressBook.Merge` | dispatch-backend/src/routes/addressBookRoutes.ts:163-181 | id, owner and creation time never change; place name, address and type keep their values unless a non-null value is sent; the three optional columns take any sent value, null included; an unknown type is refused |
| `AddressBook.MergeEmptyAndIdempotent` | dispatch-backend/src/routes/addressBookRoutes.ts:163-181 | an empty patch changes nothing, and applying a patch twice equals applying it once |
| `AddressBook.MergeNullRules` | dispatch-backend/src/routes/addressBookRoutes.ts:166-175 | a null place name keeps the old one, while a null contact name clears it |
| `AddressBook.EntryStore.constructor` | dispatch-backend/src/routes/addressBookRoutes.ts:102 | the entry table starts empty |
| `AddressBook.EntryStore.Create` | dispatch-backend/src/routes/addressBookRoutes.ts:80-121 | no user gives 401, a missing place name, address or type gives 400, and an unknown type is refused, all without change; success exactly when none of these applies, and then one entry is appended, owned by the caller, with empty optional fields stored as null |
| `AddressBook.EntryStore.OwnedEntry` | dispatch-backend/src/routes/addressBookRoutes.ts:126-151 | the shared checks in order: 401 no user, 400 non-numeric id, 404 no such entry; 403 exactly when the entry exists and another account owns it, success exactly when the caller owns it; a success is that entry's position |
| `AddressBook.EntryStore.Update` | dispatch-backend/src/routes/addressBookRoutes.ts:124-191 | every refusal leaves the table unchanged; otherwise the owner's entry is replaced by its merge with the patch, in place |
| `AddressBook.EntryStore.Delete` | dispatch-backend/src/routes/addressBookRoutes.ts:194-230 | every refusal leaves the table unchanged; otherwise exactly the entry with that id is removed and the others stay in order |
| `AddressBook.Insert` | dispatch-backend/src/routes/addressBookRoutes.ts:241-242 | inserting a name into a strictly ascending list keeps it strictly ascending and adds exactly that name |
| `AddressBook.CompanyNames` | dispatch-backend/src/routes/addressBookRoutes.ts:238-249 | the company list is strictly ascending and holds exactly the non-null, non-empty company names of the accounts |
| `AddressBook.Companies` | dispatch-backend/src/routes/addressBookRoutes.ts:233-257 | anyone but an admin gets 403; an admin gets the company list |
| `AddressBook.CompanyNamesDistinct` | dispatch-backend/src/routes/addressBookRoutes.ts:241 | each company name appears once |

## Left out

- Persistence, Prisma and SQLite: each table is an in-memory sequence and each query reads
  one state of it. The two reads of the list route are sequential rather than concurrent,
  and concurrent writers are not modelled.
- Unexpected database errors (the 500 replies of every `catch`) are not modelled, except
  for an unknown status filter in the request list and an unknown address-book entry type.
  The database refuses those two and the routes answer 500.
- The database also validates the request type, vehicle group, payment method and status
  values a request is created with. Those checks are not modelled: the model stores the
  upper-cased strings the handler passes on.
- The foreign-key check on a creator or an entry owner that no longer exists is not modelled.
- Sign-up's duplicate-e-mail 409 is the outcome of the unique constraint. The model checks
  for the e-mail before inserting, which gives the same reply.
- bcrypt hashing and comparison, and JWT signing, verification and expiry, are not
  modelled: they are the parameters `hashed`, `compare`, `sign` and `verify`.
- `Text.ToUpper`, `Text.ToLower`: case mapping covers ASCII letters only. JavaScript's `toUpperCase`/`toLowerCase` also map
  non-ASCII letters, some of them onto ASCII letters (U+0131, U+017F, ligatures).
- Lengths are counted in Unicode code points, where JavaScript counts UTF-16 code units.
  A name or password with characters beyond the Basic Multilingual Plane can therefore pass
  a length check in JavaScript that the model refuses.
- The database's `contains` is modelled as a case-sensitive substring test. With SQLite's
  `LIKE` it may ignore ASCII case.
- `Number`, `parseInt` and `Date` parsing: inputs are already-parsed integers, or None for
  NaN or absent. A fractional `limit` for the recent list and invalid date strings (which
  make the database refuse the query) are not modelled. Numeric body fields (tonnage,
  distance, price) are integers here. The handler passes them on unchanged.
- A fractional path id (`Number("1.5")`, requestRoutes.ts:273 and 299, addressBookRoutes.ts
  130 and 200) passes the `isNaN` check and makes the database refuse the lookup with a
  500. The model's ids are integers, so this path is not modelled. Page arithmetic is exact
  here, while JavaScript numbers lose precision above 2^53.
- JSON body values are strings or absent. A field sent as a number, boolean or object is
  not modelled: the `typeof ... !== "string"` refusals of sign-up and login
  (authRoutes.ts:29, 35, 41, 97 and 103) therefore never fire, and the `String(x)`
  coercions of request creation (requestRoutes.ts:119-120 and 134-142, which turn `true`
  into "TRUE") are not modelled.
- `Accounts.FindId`: find-id's `findMany` has no `orderBy`. The model returns the hits in
  table order, which the database does not promise.
- `Requests.RequestStore.Create`, `AddressBook.EntryStore.Create`: the clock is the
  parameter `now`. It is required to be no earlier than the latest stored creation time, so
  stored creation times never decrease. Rows created at the same instant are ordered
  newest-inserted first in the model, while `orderBy: { createdAt: "desc" }` leaves their
  order to the database and may order them differently on each query.
- `Requests.ListPagesCoverMatches`, `Query.PagesArePrefix`: pages are read from one fixed
  order. With equal creation times the database may break ties differently between the page
  queries, and a row can then repeat or go missing across pages. The model promises no gaps
  or repeats only for that one order, which is the database's order when creation times are
  distinct (`Query.NewestFirstStrictlyDescending`).
- `Accounts.UserStore.Signup`: the creation time of an account is `now`, and nothing
  depends on its order. `updatedAt` columns are not modelled.
- The account's default role `CLIENT` and the initial request status `PENDING` are
  defaults of the database schema. The schema is not part of this model.
- The `JWT_SECRET` fallbacks are modelled only in the two lemmas of the finding below.
  Login's `!JWT_SECRET` 500 branch cannot be taken because the fallback is never empty.
- Role strings are the enumeration `Role`. A token whose role is not one of the three
  values is not modelled.
- Mounting of the routers on paths (`app.ts`, `server.ts`), logging and the JSON reply
  messages are not part of this model.

## Findings

| source | as written | input that shows it | evidently intended | confidence | as-written member | corrected member |
|---|---|---|---|---|---|---|
| dispatch-backend/src/routes/authRoutes.ts:12 | login signs with `JWT_SECRET \|\| "dev-secret-change-me"` while the middleware (dispatch-backend/src/middleware/authMiddleware.ts:14) verifies with `JWT_SECRET \|\| "dev-secret"` | `JWT_SECRET` unset: log in with any valid account, then call any route behind the middleware with the token; it answers 401 | both sides fall back to one shared secret | high; not executed | `Accounts.UnsetSecretRefusesLoginTokens` | `Accounts.SharedSecretAdmitsLoginTokens` |
