# ShipMatch server and client session, modelled in Dafny

ShipMatch is a matchmaking app for dry-bulk chartering. Charterers swipe through a
catalogue of ships. A swipe to the right records a *match* between the charterer and
the ship. Shipowners list their own vessels. The server is an Express application over
PostgreSQL. It exists as two drafts, a JavaScript one and a TypeScript one, which
disagree in places. The client is a React application that keeps the signed-in user
and a bearer token.

This project models the core of that system as pure Dafny functions over one
immutable database value, and proves what each operation promises:

- `Base`, `Js`, `Sql`, `Crypto`, `Errors`, `Http`, `Sorting`: the small runtime the
  code relies on:
  - JavaScript truthiness, `parseInt`, `Number`, `<` against a number, `length`, `toLowerCase` and `split`;
  - how PostgreSQL binds and checks parameters: `int4` range, `NOT NULL`, `CHECK`, `UNIQUE`, `jsonb`;
  - bcrypt's hash/compare contract, and token signing as an oracle;
  - the thrown errors and their messages;
  - the JSON reply shape;
  - an `ORDER BY … DESC` as a sort by key.
- `Store`: the three tables from the schema script (users, ships, matches), the
  `SERIAL` id sequence of each table, a logical clock, and the integrity invariant `Valid`.
- `Users`, `Ships`, `Matches`: the model layer of both drafts (`…Js` and `…Ts` members).
- `Gate`: the token middleware `authenticateToken` and `generateToken`.
- `AuthRoutes`, `ShipRoutes`, `MatchRoutes`: the HTTP handlers, from request body to
  status code and JSON body.
- `ClientApp`, `ClientSession`: the client's state. This covers the mock login in
  `App.tsx` with the de-duplicated match list and the protected routes. It also covers
  the token/user context with its `localStorage` mirror and the auto-login effect.

Where the two drafts differ, both are modelled, and a lemma states how they differ.
Where a draft is wrong, the draft as written and a corrected version are both modelled
(see Findings). The rest of the model uses the corrected version.

## Model

| member | source | states |
|---|---|---|
| Errors.MessagesIdentify | server/routes/matches.js:27-33 | comparing `error.message` with the domain literal singles out exactly that domain error, so the routes' message tests cannot confuse a database error with a duplicate |
| Sql.UniqueViolationCode | server/models/User.js:20-22 | the code `'23505'` is produced by a unique violation and by no other database error |
| Sql.Int4 | server/scripts/setup-db.js:9-19 | an integer parameter binds only if it lies in the 32-bit `INTEGER` range; anything else fails with a text-representation or out-of-range error (the input syntax of PostgreSQL before 16) |
| Sql.Int4Decimal | server/scripts/setup-db.js:9-19 | the decimal text of an integer binds to that integer exactly when it is in `int4` range, and otherwise fails as out of range |
| Sql.IntegerParam | server/models/Match.js:16-23 | a missing value binds as SQL `NULL`; an integral number binds to itself when in range and fails otherwise; NaN, an infinity or a fraction fails as invalid text; a bound value is always in range |
| Sql.Int4NonInteger | server/models/Ship.ts:61-62 | the text the driver sends for NaN, an infinity or a fraction is rejected by `int4` as invalid text |
| Sql.Int4PointZero | server/models/Ship.js:65-66 | an integer written with a `.0` fraction is not `int4` text |
| Sql.RequiredText | server/scripts/setup-db.js:9-19 | a string binds to itself in a `NOT NULL` text column; `undefined` or `null` fails the not-null constraint |
| Js.ParseIntDecimal | server/routes/ships.js:12-13 | `parseInt` of an integer's decimal text gives back that integer, sign included |
| Js.ToNumberDecimal | server/routes/ships.ts:37 | `Number` of an integer's decimal text gives back that integer |
| Js.LeadingSpaceIgnored | server/routes/ships.ts:37 | a leading ECMAScript white space character, Unicode space separators such as U+3000 included, changes neither `Number` nor `parseInt` |
| Js.IdeographicSpaceDecimal | server/routes/ships.js:12-13 | an integer's decimal text after U+3000 reads back as that integer through both `Number` and `parseInt` |
| Js.ToNumberPointZero | server/routes/ships.ts:37 | `Number` reads an integer written with a `.0` fraction as that integer |
| Js.ParseInt | server/routes/ships.js:12-13 | `parseInt` yields an integer or NaN, never a fraction or an infinity |
| Js.Utf16 | server/models/User.ts:36-38 | the code units `charAt` and `substring` index number `length` of them, each below 0x10000 |
| Js.Utf16Bmp | server/models/User.ts:36-38 | text of the Basic Multilingual Plane is its own code units, one per character |
| Js.Utf16Length | server/routes/auth.js:25 | a string's `length` counts UTF-16 code units: one per character inside the Basic Multilingual Plane and two per character outside it, so it lies between the character count and twice that |
| Js.ToLowerLowers | server/routes/auth.js:33 | lower-casing yields lower-case text, leaves lower-case text unchanged and is idempotent |
| Js.SplitJoin | server/middleware/auth.ts:11 | `split` loses nothing: joining its parts with the separator restores the text, and no part contains the separator |
| Js.SplitAt | server/middleware/auth.ts:11 | splitting a text at its first separator yields the part before it, followed by the split of the rest |
| Crypto.BcryptHash | server/models/User.js:6 | hashing succeeds exactly for a string password and records cost 12 |
| Crypto.HashThenCompare | server/models/User.js:54-56 | a password compares equal to the digest of another exactly when their bcrypt keys agree (the UTF-8 bytes and a zero byte, repeated to 72 bytes); a digest never equals the cleartext; against a stored cleartext the compare answers false, except that a 60-unit cleartext with an unreadable salt part makes it throw |
| Crypto.BcryptCompare | server/models/User.ts:36-38 | the compare throws exactly for a non-string password or a stored cleartext of digest length whose salt part bcrypt rejects, with that salt error; it never accepts a stored cleartext |
| Crypto.SaltCheck | server/models/User.ts:36-38 | a salt part that does not start with `$2` is rejected as an invalid version, and any rejection is a salt error, never an argument error |
| Crypto.UncheckedSaltUnit | server/models/User.ts:36-38 | a stored 60-unit text `$2a$10$aaa!` followed by `a`s passes the salt checks, since the fourth unit of a base64 group is never checked, so the compare answers false instead of throwing |
| Crypto.SixtyCharactersThrow | server/models/User.ts:16-24 | a stored cleartext of sixty lower-case letters, as a TypeScript registration leaves it, makes the compare throw an invalid-version error |
| Crypto.Utf8Char | server/models/User.js:6 | a character encodes to one to four UTF-8 bytes, its first byte is zero only for NUL, an ASCII character is its own byte, and every later byte is a continuation byte |
| Crypto.Utf8Ascii | server/models/User.js:6 | an ASCII password is encoded one byte per character, each byte its code |
| Crypto.KeyTruncates | server/models/User.js:54-56 | two passwords whose UTF-8 encodings share their first 72 bytes compare equal to each other's digest, whatever follows |
| Crypto.AsciiTruncates | server/models/User.js:54-56 | two ASCII passwords that share their first 72 characters compare equal to each other's digest |
| Crypto.KeyDistinguishes | server/models/User.js:54-56 | below 72 bytes and without NUL characters, passwords with different encodings do not compare equal to each other's digest |
| Crypto.GenerateToken | server/middleware/auth.ts:30-36 | the signed claims carry the user id, and the expiry comes from `JWT_EXPIRES_IN` when that is set and non-empty, else `'7d'` |
| Store.UserTypeOf | server/scripts/setup-db.js:14 | a user type name passes the `CHECK` exactly when it names one of the two user types |
| Store.ShipKindOf | server/scripts/setup-db.js:27 | a ship type name passes the `CHECK` exactly when it names one of the four ship types |
| Store.StatusOf | server/scripts/setup-db.js:68 | a status passes the `CHECK` exactly when it is one of `pending`, `accepted`, `negotiating`, `confirmed` |
| Store.FindUserUnique | server/scripts/setup-db.js:9-19 | with distinct user ids, looking up a stored user's id finds that user |
| Store.AtMostOneRowPerPair | server/scripts/setup-db.js:63-72 | under the `UNIQUE(ship_id, user_id)` invariant, at most one match exists per ship and user |
| Store.DistinctStoredPairs | server/scripts/setup-db.js:63-72 | two different stored matches never share both ship and user |
| Sorting.Insert | server/models/Ship.js:59 | inserting into a newest-first list keeps it newest-first and adds exactly one element |
| Sorting.SortDesc | server/models/Ship.js:59 | `ORDER BY … DESC` returns a permutation of its input, sorted by the key in descending order |
| Sorting.NewestFirst | server/models/Match.js:33 | a row whose key is strictly greatest comes first in the sorted result |
| Users.StrippedForgetsOnlyPassword | server/routes/auth.ts:73-74 | removing the password loses nothing else: two rows strip alike exactly when they differ at most in the password |
| Users.ProjectedIsStripped | server/models/User.js:11 | the JavaScript `RETURNING` list is the row without the password and without `updated_at` |
| Users.InsertedUser | server/models/User.js:8-18 | an inserted user gets the next id and fresh timestamps, keeps the bound fields, and has an email no stored user had; the insert fails with a unique violation exactly when the email is taken |
| Users.Translated | server/models/User.js:19-24 | the JavaScript `create` turns a unique violation, and only that error, into `Email already exists`; every other error is rethrown unchanged |
| Users.CreateTs | server/models/User.ts:16-24 | the TypeScript `create` only ever throws database errors |
| Users.CreateJsStoresDigest | server/models/User.js:5-25 | a successful JavaScript registration stores a bcrypt digest of the password, with `verified` false, and returns the row without the password |
| Users.CreateJsDuplicate | server/models/User.js:19-24 | the JavaScript `create` throws `Email already exists` exactly when the email is taken and the rest of the row is acceptable |
| Users.CreateTsStoresCleartext | server/models/User.ts:16-24 | the TypeScript `create` stores the password as given, marks the user verified, and succeeds whenever the row is acceptable |
| Users.CreateTsFixedLikeJs | server/models/User.js:5-25 | the corrected TypeScript `create` succeeds and fails exactly like the JavaScript one, with the same errors |
| Users.CreateJsValid | server/models/User.js:5-25 | registration keeps the store's integrity invariant |
| Users.CreateTsValid | server/models/User.ts:16-24 | the TypeScript registration keeps the store's integrity invariant |
| Users.FindByIdJs | server/models/User.js:33-40 | the lookup succeeds exactly when the store is up and the id binds; a found user is a stored row, without its password, carrying the requested id; not found means no stored user has that id |
| Users.FindByIdTs | server/models/User.ts:26-29 | a found user is a stored row with the requested id; "not found" means no stored user has it |
| Users.FindByEmail | server/models/User.js:27-31 | a found user is a stored row with that exact email; "not found" means no stored user has it |
| Users.FindByIdDraftsAgree | server/models/User.ts:26-29 | both drafts find the same user for every id, the JavaScript one returning the public columns only |
| Users.CreateThenFind | server/models/User.ts:16-24 | a user just created is found again by id and by email |
| Users.SetProfile | server/models/User.js:42-52 | a profile update changes name, company and `updated_at` of the row with that id and no other row |
| Users.UpdateProfileChangesOnly | server/models/User.js:42-52 | after a profile update, the ships, the matches and every other user are unchanged |
| Users.UpdateProfileResult | server/models/User.js:42-52 | updating an absent id changes nothing and returns nothing; updating a present id returns the row with the new name and company |
| Users.UpdateProfileValid | server/models/User.js:42-52 | a profile update keeps the integrity invariant |
| Users.GetDashboard | server/models/User.js:58-73 | any failure of the dashboard queries surfaces as `Failed to fetch dashboard data` |
| Users.DashboardCounts | server/models/User.js:58-73 | the dashboard succeeds exactly when the store is up and the id binds; it then counts the user's ships and matches |
| Gate.Authenticate | server/middleware/auth.ts:9-28 | a refused request is answered 401 or 403; an admitted one carries a user row that is in the store |
| Gate.TokenIsSecondField | server/middleware/auth.ts:11 | the token is the second space-separated field of the header; a header without a space carries no token |
| Gate.SchemeIgnored | server/middleware/auth.ts:11 | the scheme word is never checked: any scheme is treated like `Bearer` |
| Gate.MissingTokenRejected | server/middleware/auth.ts:12-14 | no header, or no or empty second field, is refused with 401 `Access token required` |
| Gate.UnverifiedRejected | server/middleware/auth.ts:25-27 | a token that does not verify is refused with 403 `Invalid or expired token` |
| Gate.UnknownUserRejected | server/middleware/auth.ts:19-21 | a valid token for a user who no longer exists is refused with 401 `Invalid token` |
| Gate.IssuedTokenPasses | server/middleware/auth.ts:16-23 | a token issued for a stored user admits that user's whole row |
| AuthRoutes.NewUserOf | server/routes/auth.js:30-37 | the new user is built only when `email` is a string, with the email lower-cased; otherwise `toLowerCase` is not a function |
| AuthRoutes.TooShortText | server/routes/auth.js:25 | a password of characters from the Basic Multilingual Plane is too short exactly when it has fewer than six; three characters from outside it (six code units) pass |
| AuthRoutes.TooShortObjectLength | server/routes/auth.js:25 | an object password's `length` is converted before the comparison: the number and its decimal text count alike, and `true` counts as 1 |
| AuthRoutes.RegisterValidationOrder | server/routes/auth.js:12-27 | registration checks the fields in source order: all four required, then the type, then the password length, each with its own 400 message |
| AuthRoutes.RegisterStoresLowercase | server/routes/auth.js:30-37 | a registered user's email is stored lower-cased |
| AuthRoutes.RegisterDuplicateJs | server/routes/auth.js:46-53 | registering a taken email answers 409 `Email already exists` and changes nothing |
| AuthRoutes.LoginOutcomes | server/routes/auth.js:58-94 | both drafts of login look the email up lower-cased and agree: 401 `Invalid credentials` for an unknown email or a rejected password, 200 with the user without password and a token for that user when the compare accepts; when it throws, the JavaScript draft answers 500 and the TypeScript draft forwards the bcrypt error (auth.ts:82-84) |
| AuthRoutes.LoginFindsAppended | server/routes/auth.js:68-76 | login by a newly appended user's email reaches that user's compare: 200 when it accepts, 401 when it rejects, and 500 or the forwarded error when it throws |
| AuthRoutes.RegisterThenLoginJs | server/routes/auth.js:8-94 | a user registered by the JavaScript route can then log in with the email and password they registered with, and login returns that new user |
| AuthRoutes.RegisterDuplicateTs | server/routes/auth.ts:47-51 | in the TypeScript draft a taken email does not get a 409: the unique violation is handed to the error handler and nothing changes |
| AuthRoutes.RegisterTsNever409 | server/routes/auth.ts:47-51 | the TypeScript register route never answers 409 |
| AuthRoutes.RegisterDuplicateTsFixed | server/routes/auth.ts:47-51 | with the message translation restored, a taken email answers 409 `Email already exists` and changes nothing |
| AuthRoutes.RegisterThenLoginTs | server/models/User.ts:16-24 | a user registered by the TypeScript route cannot log in with the password they registered with: login answers 401, or, for a 60-unit password whose salt part bcrypt rejects, forwards that bcrypt error |
| AuthRoutes.RegisterThenLoginTsFixed | server/routes/auth.ts:56-85 | with the password hashed on registration, the TypeScript login admits the newly registered user |
| AuthRoutes.MeTsLeaksPassword | server/middleware/auth.ts:16-23 | for every admitted request, the TypeScript `/me` reply carries the stored password |
| AuthRoutes.MeTsFixedHidesPassword | server/routes/auth.ts:93-98 | the corrected `/me` answers like the original when nobody is attached, and otherwise returns the caller's id, name and type without the password |
| AuthRoutes.MeTs | server/routes/auth.ts:93-98 | `/me` answers 401 exactly when no user is attached, and otherwise returns the attached user |
| AuthRoutes.ProfileChangesOnlyNameAndCompany | server/routes/auth.js:102-123 | the profile route refuses a missing name with 400 and otherwise changes only the caller's name and company |
| AuthRoutes.DashboardJs | server/routes/auth.js:125-133 | the dashboard route always answers in JSON |
| AuthRoutes.DashboardOutcomes | server/routes/auth.js:125-133 | the dashboard route answers 200 with the caller's counts when the store is up, and 500 otherwise |
| AuthRoutes.Logout | server/routes/auth.ts:88-90 | logout changes nothing on the server and always answers `Logout successful` |
| Matches.InsertedMatch | server/models/Match.js:16-23 | an inserted match gets the next id and fresh timestamps, keeps the caller and ship, and refers to a stored user, ship and cargo; a missing status fails |
| Matches.DuplicateRejected | server/models/Match.js:6-14 | `create` throws `Match already exists` exactly when a match for that ship and user is already stored |
| Matches.PairExists | server/models/Match.js:6-14 | the duplicate query finds rows exactly when a stored match has that ship and user |
| Matches.CreateAppendsOne | server/models/Match.js:4-24 | a successful `create` appends one row with the next id, the caller, the bound ship, the given status and a null cargo when none was sent, and leaves everything else unchanged |
| Matches.CreateJsPending | server/models/Match.js:16-23 | a match created by the JavaScript draft starts `pending` |
| Matches.CreateDraftsAgree | server/models/Match.ts:13-35 | with a schema default of `pending`, both drafts of `create` behave identically |
| Matches.CreateTsNeedsDefault | server/models/Match.ts:13-35 | without a schema default for status, every TypeScript `create` fails |
| Matches.CreateValid | server/models/Match.js:4-24 | `create` keeps the integrity invariant, including one match per ship and user |
| Matches.InsertValid | server/models/Match.js:16-23 | appending a checked new match keeps the integrity invariant |
| Matches.JoinableRows | server/models/Match.js:28-34 | the join keeps exactly the user's matches whose ship exists |
| Matches.Listed | server/models/Match.js:28-34 | the listing holds the user's joinable matches, each with its ship, newest match first |
| Matches.ViewsAsWritten | server/models/Match.js:37-52 | the JavaScript mapping yields one view per row, in order, and succeeds exactly when every row's images parse |
| Matches.ViewsFixed | server/models/Match.js:37-52 | the corrected mapping yields, per row, the match joined with its ship and the ship's normalised images |
| Matches.FindByUserIdMeaning | server/models/Match.js:26-53 | the corrected listing succeeds when the store is up, holds one view per joinable match of the user, each naming a stored ship, newest first |
| Matches.FindByUserIdComplete | server/models/Match.js:26-53 | every joinable match of the user appears in the corrected listing |
| Matches.FindByUserIdAsWrittenAgrees | server/models/Match.js:26-53 | whenever the JavaScript listing succeeds, it agrees with the corrected one on ids and order |
| Matches.FindByUserIdAsWrittenThrows | server/models/Match.js:50 | the JavaScript listing throws a JSON syntax error as soon as one listed ship has the default empty image list |
| Matches.CreatedListedFirst | server/models/Match.js:4-53 | a match just created is first in its creator's listing |
| Matches.AppendedNewest | server/models/Match.js:33 | a newly appended match is newer than every other row of the listing |
| Matches.HeldRows | server/models/Match.ts:37-48 | the TypeScript listing's filter keeps exactly the user's matches |
| Matches.FindByUserIdTsMeaning | server/models/Match.ts:37-48 | the TypeScript listing holds exactly the user's matches, ships or no ships, newest first |
| Matches.ListingsNest | server/models/Match.ts:37-48 | the JavaScript listing is never longer than the TypeScript one, and is as long when every match has its ship |
| Matches.SetStatus | server/models/Match.js:55-65 | a status update changes status and, where stamped, `updated_at` of the row with that id, and no other row |
| Matches.FindMatch | server/models/Match.js:55-65 | a found match is a stored row with that id; "not found" means no row has it |
| Matches.UpdateCompositeStatusChecked | server/models/Match.js:55-65 | an array or object status sent for an existing match fails the status CHECK |
| Matches.UpdateAbsent | server/models/Match.js:55-65 | updating an absent id returns nothing and changes nothing |
| Matches.UpdateChangesOnlyStatus | server/models/Match.js:55-65 | updating an existing match to a valid status sets exactly its status, and its `updated_at` in the JavaScript draft only, leaving every other row and table unchanged |
| Matches.UpdateKeepsKeys | server/models/Match.ts:50-61 | no status update, successful or not, changes users, ships, ids or any column of a match other than status and `updated_at` |
| Matches.UpdateValid | server/models/Match.js:55-65 | a status update keeps the integrity invariant |
| Ships.BuildersDifferOnlyInPort | server/models/Ship.ts:29-59 | the two drafts' query builders are identical except for the port condition: substring `ILIKE` in JavaScript, equality in TypeScript |
| Ships.NoFilterNoWhere | server/models/Ship.ts:29-59 | without filters the TypeScript draft runs the bare `SELECT * FROM ships` |
| Ships.ILikeSubstring | server/models/Ship.js:53-56 | `ILIKE '%p%'` holds exactly when the lower-cased text contains the lower-cased port |
| Ships.NumberParamBinds | server/models/Ship.js:41-51 | a numeric filter binds exactly when it is an integer in `int4` range; NaN, infinities and fractions do not bind |
| Ships.BuildJsMeaning | server/models/Ship.js:30-63 | the JavaScript builder numbers one placeholder per present filter; a row meets all conditions exactly when it meets the filters; binding fails exactly when a bound is out of range |
| Ships.BuildTsMeaning | server/models/Ship.ts:29-59 | the same three facts for the TypeScript builder |
| Ships.QueryMeaningJs | server/models/Ship.js:30-63 | the filtered query succeeds exactly when the bounds fit, and then returns exactly the ships that meet the filters |
| Ships.QueryMeaningTs | server/models/Ship.ts:29-59 | the same for the TypeScript draft, and without filters it returns every ship |
| Ships.FormatAll | server/models/Ship.js:60-62 | every row is formatted, in order |
| Ships.ImagesNormalised | server/models/Ship.js:83-96 | stored images become the array as stored, an empty list when falsy, and a one-element list when unparsable text or another value |
| Ships.SpecificationsNormalised | server/models/Ship.js:98-106 | stored specifications become `{}` when falsy or unparsable, and the object as stored otherwise |
| Ships.NormaliseImagesIdempotent | server/models/Ship.js:83-96 | normalising images twice gives what normalising once gives |
| Ships.NewestFirst | server/models/Ship.js:59 | the catalogue order is a permutation of the rows, newest first |
| Ships.FindAllJsMeaning | server/models/Ship.js:30-63 | the JavaScript catalogue succeeds exactly when the store is up and the bounds fit, and then lists the formatted matching ships, newest first |
| Ships.FindAllTsMeaning | server/models/Ship.ts:29-59 | the TypeScript catalogue likewise, in unspecified order, and all ships when unfiltered |
| Ships.FindByIdAgree | server/models/Ship.ts:61-64 | both drafts of `findById` fail exactly when the id is out of range, and otherwise find the same stored ship |
| Ships.FindByOwnerIdTsMeaning | server/models/Ship.ts:74-77 | the owner's listing holds exactly the ships with that owner id (in no stated order) |
| Ships.FindByOwnerIdJsMeaning | server/models/Ship.js:76-80 | the JavaScript owner listing is the TypeScript one, formatted |
| Ships.CheckedKind | server/scripts/setup-db.js:27 | a ship type is stored only when it passes the schema's `CHECK` |
| Ships.InsertedShip | server/models/Ship.js:4-28 | an inserted ship gets the next id and fresh timestamps, stores every bound column, refers to an existing owner, and fails when a required text column is missing |
| Ships.CreateJs | server/models/Ship.js:4-28 | `create` succeeds exactly when the store is up and the insert is valid, and returns the new row formatted |
| Ships.CreateTs | server/models/Ship.ts:66-72 | the TypeScript `create` succeeds exactly when the insert is valid, and returns the new row as stored |
| Ships.CreateTsDefaults | server/models/Ship.ts:66-72 | the TypeScript `create` never stores images, specifications or a rate: the row always has `[]`, `{}` and no rate, whatever was sent |
| Ships.CreateValid | server/models/Ship.js:4-28 | both drafts of `create` keep the integrity invariant |
| Ships.CreateThenFind | server/models/Ship.js:4-28 | a ship just created is found again by its id |
| Ships.CreateKeepsImages | server/models/Ship.js:20-23 | an image array or specification object sent to `create` comes back unchanged in the formatted ship |
| MatchRoutes.CreateCaught | server/routes/matches.js:27-34 | a failed `create` answers 409 exactly for a duplicate match, and 500 `Internal server error` otherwise |
| MatchRoutes.CreateRejects | server/routes/matches.js:8-35 | a missing `shipId` answers 400 `Ship ID is required`; every failure leaves the store unchanged |
| MatchRoutes.CreatedForCaller | server/routes/matches.js:8-35 | a 201 answer reports the match just appended to the store, for the calling user and the requested ship |
| MatchRoutes.DuplicateIs409 | server/routes/matches.ts:17-45 | asking again for a stored ship and caller answers 409 `Match already exists` in both drafts |
| MatchRoutes.MyMatchesJs | server/routes/matches.js:38-46 | the listing answers 200 exactly when the model listing succeeds, and 500 otherwise |
| MatchRoutes.MyMatchesTs | server/routes/matches.ts:48-57 | the same for the TypeScript draft |
| MatchRoutes.MyMatchesTsAreMine | server/routes/matches.ts:48-57 | with the store up, the TypeScript listing holds exactly the caller's matches |
| MatchRoutes.StatusPointZero | server/routes/matches.ts:70 | the TypeScript status route treats `/7.0/status` as `/7/status`; the JavaScript route answers 500 for it, since the text `7.0` is not an integer |
| MatchRoutes.PathIdBinds | server/routes/matches.ts:70 | a path id binds to the same integer whether sent as text or through `Number` |
| MatchRoutes.InvalidStatusRejected | server/routes/matches.js:52-56 | a status outside the four answers 400 `Invalid status` and changes nothing |
| MatchRoutes.StatusRouteOnId | server/routes/matches.js:49-73 | both drafts of the status route do the model update for the numeric id in the path |
| MatchRoutes.AnyStatusAccepted | server/routes/matches.js:49-73 | any valid status on an existing match is answered 200 with the updated row, and only that row's status changes; no check of the caller is made |
| MatchRoutes.AbsentIs404 | server/routes/matches.js:58-62 | an id with no match answers 404 `Match not found` and changes nothing |
| ShipRoutes.QueryBoundMeaning | server/routes/ships.js:12-13 | an absent or empty bound sets no filter; a bound sent as a non-zero integer's decimal text sets exactly that integer |
| ShipRoutes.QueryFiltersMeaning | server/routes/ships.js:10-15 | the query string's type, port and bounds become the filters as sent |
| ShipRoutes.CatalogueJs | server/routes/ships.js:8-23 | the catalogue answers 200 or 500 |
| ShipRoutes.CatalogueMeaning | server/routes/ships.ts:17-32 | the catalogue answers 200 exactly when the store is up and the bounds fit, and then lists exactly the ships that meet the filters |
| ShipRoutes.MinimumDeadweight | server/routes/ships.ts:17-32 | a `minDwt` query lists exactly the ships of at least that deadweight |
| ShipRoutes.ShipByIdPointZero | server/routes/ships.ts:37 | the TypeScript route answers for `/7.0` as for `/7`; the JavaScript route answers 500 for it, since the text `7.0` is not an integer |
| ShipRoutes.ShipByIdAgree | server/routes/ships.js:26-39 | for an in-range id, both drafts give the same status: 200 with the stored ship (formatted in JavaScript) when it exists, 404 `Ship not found` when it does not |
| ShipRoutes.OwnerName | server/routes/ships.js:53 | the owner shown on a new ship is the caller's company, or the caller's name when there is no company |
| ShipRoutes.ShipData | server/routes/ships.js:50-54 | the ship data is the body with `ownerId` and `owner` overridden by the caller's |
| ShipRoutes.CreateNeedsShipowner | server/routes/ships.js:44-48 | only shipowners may create ships: anyone else gets 403 and nothing changes |
| ShipRoutes.CreateFailureChangesNothing | server/routes/ships.ts:51-75 | a create that does not answer 201 changes nothing |
| ShipRoutes.MyShipsJs | server/routes/ships.js:68-82 | "my ships" answers 403 exactly for non-shipowners |
| ShipRoutes.MyShipsTs | server/routes/ships.ts:78-93 | the same for the TypeScript draft |
| ShipRoutes.MyShipsTsMeaning | server/routes/ships.ts:78-93 | for a shipowner with the store up, "my ships" lists exactly the caller's ships |
| ShipRoutes.CreatedShipIsMineJs | server/routes/ships.js:42-82 | a ship created through the JavaScript route is owned by the caller, and the caller's "my ships" grows by exactly one |
| ShipRoutes.OwnedRowsAppended | server/models/Ship.ts:74-77 | appending a ship the owner owns extends that owner's rows by exactly it |
| ShipRoutes.CreatedShipIsNotMineTs | server/routes/ships.ts:60-66 | a ship created through the TypeScript route takes its owner from the body's `owner_id`, never from the caller, so it is not in the caller's "my ships" unless the body says so |
| ShipRoutes.CreatedShipIsMineTsFixed | server/routes/ships.ts:60-66 | with the owner bound under the key the model reads, the created ship belongs to the caller and appears in their ships |
| ClientApp.HandleLogin | src/App.tsx:19-21 | the mock login signs in the mock user with the chosen type and keeps the matches |
| ClientApp.HandleLogout | src/App.tsx:23-26 | logout clears the user and the matches |
| ClientApp.HandleMatch | src/App.tsx:28-32 | a swipe adds the ship to the matches unless it is already there, and keeps the user |
| ClientApp.MatchKeepsDistinct | src/App.tsx:28-32 | the match list never holds a ship twice, and holds exactly the previous ships plus the new one |
| ClientApp.MatchIdempotent | src/App.tsx:28-32 | swiping the same ship twice is the same as swiping it once |
| ClientApp.SwipesDistinct | src/App.tsx:28-32 | after any sequence of swipes, the list is duplicate-free and holds exactly the earlier and swiped ships |
| ClientApp.FreshSwipesDistinct | src/App.tsx:28-32 | from a fresh start, the list holds exactly the swiped ships, each once |
| ClientApp.Landing | src/components/ProtectedRoute.tsx:11-17 | a signed-out user always lands on the login screen; a signed-in user on a path no named route matches lands on the dashboard; a path the `/login` route matches lands on login |
| ClientApp.RouteIgnoresCaseAndSlash | src/App.tsx:37-61 | route matching ignores a trailing slash and the case of ASCII letters: a path renders what its lower-cased form does |
| ClientApp.StripSlashes | src/App.tsx:37-61 | the stripped path is a prefix of the path, does not end in a slash, and only slashes were removed |
| ClientApp.LoginLogout | src/App.tsx:19-61 | after login the protected screens open; after logout they send back to login |
| ClientSession.Persist | src/contexts/UserContext.tsx:32-38 | after the persistence effect, storage holds the token when there is one and nothing otherwise |
| ClientSession.Mount | src/contexts/UserContext.tsx:25-27 | on mount the token is read from storage, no user is set, and the stored token is kept |
| ClientSession.SetToken | src/contexts/UserContext.tsx:32-38 | a token change is mirrored to storage; setting the same token is a no-op |
| ClientSession.SetUser | src/contexts/UserContext.tsx:24 | setting the user does not touch token or storage |
| ClientSession.Logout | src/contexts/UserContext.tsx:72-76 | logout clears user, token and storage |
| ClientSession.AutoLoginOutcomes | src/contexts/UserContext.tsx:41-70 | auto-login runs only with a stored token and no user; success sets the user, failure clears token and storage |
| ClientSession.HeaderCarriesToken | src/contexts/UserContext.tsx:47-51 | the header the client sends hands the server's gate exactly the saved token |
| ClientSession.StepPersisted | src/contexts/UserContext.tsx:32-38 | every event leaves storage mirroring the token |
| ClientSession.RunPersisted | src/contexts/UserContext.tsx:25-76 | from mount, after any events, storage mirrors the token, and an authenticated session holds a non-empty token |
| ClientSession.RunKeepsPersisted | src/contexts/UserContext.tsx:32-38 | any run of events from a mirrored state keeps storage mirrored |

## Findings

| source | as written | input that shows it | evidently intended | confidence | as-written member | corrected member |
|---|---|---|---|---|---|---|
| server/models/User.ts:16-24 | the TypeScript `create` stores the password in clear text, while TypeScript login bcrypt-compares against it | register `{name, email, password: "secret1", type: "charterer"}`, then log in with the same email and password: 401 `Invalid credentials` | store a bcrypt digest, as the JavaScript draft does, so that registration followed by login succeeds | not executed | AuthRoutes.RegisterThenLoginTs | AuthRoutes.RegisterThenLoginTsFixed |
| server/routes/ships.ts:60-66 | the route sets `ownerId` in the ship data, but the TypeScript `Ship.create` reads `owner_id` | a shipowner posts a ship without `owner_id`: the ship is stored with no owner and is missing from their "my ships" | the created ship belongs to the authenticated caller | not executed | ShipRoutes.CreatedShipIsNotMineTs | ShipRoutes.CreatedShipIsMineTsFixed |
| server/models/Match.js:50 | `JSON.parse(row.images \|\| '[]')` parses a `jsonb` value the driver has already decoded; the default `[]` stringifies to the empty text | any match whose ship has the default image list `[]`: `JSON.parse("")` throws and the listing answers 500 | return the decoded images, normalised like the ship catalogue does | not executed | Matches.FindByUserIdAsWrittenThrows | Matches.FindByUserIdMeaning |
| server/routes/auth.ts:47-51 | the 409 branch waits for `Email already exists`, which the TypeScript `User.create` never throws | register an email that is already taken: the unique violation reaches the error handler instead of a 409 | answer 409 `Email already exists` for a taken email | not executed | AuthRoutes.RegisterTsNever409 | AuthRoutes.RegisterDuplicateTsFixed |
| server/middleware/auth.ts:16-23 | the gate attaches the whole user row, and the TypeScript `/me` returns it, password included | any authenticated `GET /me`: the reply carries the stored password | return the user without the password, as login and register do | not executed | AuthRoutes.MeTsLeaksPassword | AuthRoutes.MeTsFixedHidesPassword |

## Left out

- Network, the connection pool, `dotenv`, logging and the Express plumbing (`cors`, JSON body parsing, `next(error)` beyond the status it leads to). A down database is one flag, `online`, under which every statement fails.
- Concurrency: requests run one at a time. The race between the duplicate check and the insert of `Match.create` is therefore not modelled. Under concurrency the `UNIQUE` constraint turns that race into a database error.
- Clocks: `NOW()`/`CURRENT_TIMESTAMP` is a logical clock that ticks on every write, so newer rows have strictly larger timestamps.
- Randomness and cryptography: bcrypt salting and jwt signing are oracles. Only their contracts are modelled: compare-after-hash on bcrypt's 72-byte key, and verification of a signed token.
- Crypto.BcryptCompare: a digest is identified by its cost and key, so salts are not modelled and distinct keys are taken to give distinct digests. Passwords with NUL characters can share keys in ways `KeyTruncates` and `KeyDistinguishes` do not cover. A stored plaintext of 60 code units whose salt part bcrypt can read is compared as false: the cipher is not modelled, so the model cannot see that such a plaintext might itself be a genuine digest of the password (as when a digest is sent as the password to the TypeScript registration), which bcryptjs would accept. The salt checks follow bcryptjs 2.x, whose salt decoder leaves the fourth unit of each base64 group unchecked.
- Floating point: latitude and longitude are kept as the text that was sent; rates and deadweights are integers, and `parseFloat` is not modelled.
- Js.ToNumber: numbers are exact decimals. Rounding to double precision, overflow to `Infinity` and underflow to 0 (as for `1e400`, `1e-400` or a 20-digit fraction) are not modelled. `String` of a fraction is written positionally, where JavaScript switches to exponent notation below 10^-6 and from 10^21. Date, decimal and `VARCHAR` length validation by PostgreSQL is not modelled.
- Unicode: `toLowerCase` and `ILIKE` case-fold ASCII letters only. A Dafny string holds Unicode scalar values, so a lone surrogate, which a JavaScript string may hold, cannot be represented, nor can its effect on `length` or UTF-8 encoding. `%` and `_` inside a searched port are treated as literal characters.
- Ties under `ORDER BY … DESC`: rows with equal keys come in an unspecified order. The contracts say nothing about it.
- Array values bound as parameters (PostgreSQL array literals) and repeated query keys (which Express turns into arrays) are not modelled: every query value is one string.
- When a statement violates several constraints at once, the model reports one of them. The order in which PostgreSQL checks them is not modelled.
- A failed insert still consumes a serial value in PostgreSQL. In the model it does not.
- Schema differences between the two setup scripts: the model has one schema. The `matches` table has a `created_at` column, and `setup-db.js` lacks it. It always has a `cargo_id` column, as in `setup-db.js`. In `setup-db.ts` that column does not exist, so every `INSERT INTO matches (ship_id, user_id, cargo_id)` of `Match.ts` fails there with an undefined-column error; the model does not produce that error. The same schema's missing default for `status` is modelled by `matchStatusDefault`, and under it `Matches.CreateTsNeedsDefault` shows every TypeScript `create` failing for that reason instead.
- `server/middleware/auth.js` is not part of this model. The JavaScript routes therefore take the authenticated account as a parameter.
- The cargo, map and seed scripts, the screens other than routing, the theme provider and `src/data/mockData.ts` beyond the mock user are not modelled.
- ClientApp.Route: percent-encoded characters in the path are not decoded before matching, and the router's ranking is reduced to the fixed order of the three named routes before `*`.
- ClientApp.HandleMatch: modelled on the state of the latest render. Two swipes handled within one render would both read the same stale `matchedShips` closure. The second would then overwrite the first.
- React effect scheduling is modelled as a sequence of events (`ClientSession.Step`).
- The outcome of the `/api/auth/me` fetch is a parameter of `ClientSession.AutoLogin`.
- Sql.Int4: models the `int4` input syntax of PostgreSQL 15 and earlier, since the connection settings pin no server version. From PostgreSQL 16 on, `int4` also reads `0x`/`0o`/`0b` prefixes and `_` digit separators. There, `GET /api/ships/0x10` and `PUT /api/matches/0x10/status` of the JavaScript routes would act on id 16, where the model answers 500.
- Ships.FindAllTsMeaning: states membership, not order, because the TypeScript `findAll` has no `ORDER BY`.
