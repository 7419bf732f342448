# destru-backend identity and access core, modelled in Dafny

This project models the identity and access core of the destru catalogue
service:

- **The tagged opaque-ID codec.** `encode_sqids` packs a primary key with
  `557 + flag` and hands the pair to Sqids. `decode_sqids` unpacks a public
  string and rejects a malformed sequence, another entity's flag, or a value
  beyond `i64`. The `UserID` (flag 0) and `StructureID` (flag 1) wrappers
  serialize and deserialize through that codec.
- **The session claims.** `generate_jwt` builds the claims (encoded user id,
  expiry in Unix seconds) that the signer turns into the session token.
- **The auth handlers.** `register`, `login` and `logout` validate input,
  decide against the `users` table, and update `users` and `user_tokens` in
  place.
- **Two small helpers.** The structure preview conversions and the
  pagination defaults.

Files and modules:

- `primitives.dfy` (`Primitives`): the `u8`, `u64`, `i64` and `usize`
  ranges, plus `Option` and `Result`.
- `destru.dfy` (`Destru`, for `src/lib.rs`): the codec, its errors, the
  claims and the hashing boundary.
- `ids.dfy` (`Ids`, for `src/models/ids.rs`): the two wrapper types, written
  once over an `IdKind`.
- `user_tokens.dfy` (`UserTokens`): the `user_tokens` table as a sequence of
  rows. Each SQL `DELETE` is `DeleteWhere` with a `Condition`. `Issue` is
  the three-statement login update. The lemmas give its bounds.
- `auths.dfy` (`Auths`, for `src/routes/auths.rs`): the validators, the
  expiry rule, the login decision, and the `Store` class. `Store` holds both
  tables and has one method per handler and per statement of the login update.
- `structure.dfy` (`StructureModel`) and `pagination.dfy` (`Pagination`):
  the helpers in `src/model/`.

Foreign code is a parameter, not an axiom:

- The Sqids engine is a `Codec` (a pair of functions). Its one promise,
  that decoding an encoding gives the numbers back, is the predicate
  `RoundTrips`. Every round-trip lemma requires it.
- Argon2 is a `Crypto` (hash with a salt, verify). The predicate `Faithful`
  says a hash verifies its own password and no other.
- The JWT signer is a function `Claims -> string` inside `Services`.

Time is integer Unix seconds. There are two clocks, as in the handler:

- `now` is the application clock (`Utc::now()`), used for the expiry.
- `dbNow` is the transaction clock (`NOW()`), used by the expired-token
  delete.

New row ids are inputs, because they come from database sequences. Each is
required to be larger than every id already in its table.

A panic that aborts the request is a result value: `Outcome.Panicked`,
`LoginResult.Aborted`, or `None` for the preview conversions. An aborted
request leaves the tables unchanged, because its transaction never
commits.

Three behaviours of the login and logout handlers are worth stating
outright:

- **Session count.** The handler trims the user to the 5 highest ids
  *before* inserting, so after a login a user can hold 6 rows.
  `UserTokens.IssueBound` proves the exact count, min(live rows, 5) + 1.
- **Logout.** The handler deletes every row whose token equals the cookie
  value.
- **Trim order.** The handler ranks a user's rows by row id.

## Model

| member | source | states |
|---|---|---|
| `Destru.EncodeSqids` | src/lib.rs:34-54 | `InvalidID` exactly when the value is negative. Otherwise the codec gets exactly `[value, 557 + flag]`: a codec success is returned as the codec's string, and a codec failure surfaces as `Internal` with its message, never as `InvalidID`. |
| `Destru.WrappingSubMatchesFlag` | src/lib.rs:65 | The wrapped `u64` difference `m - 557` equals the flag iff `m == 557 + flag`. An underflow (m < 557) can never match a `u8` flag. |
| `Destru.DecodeSqids` | src/lib.rs:56-74 | Every rejection is `InvalidID`. Success iff the codec yields exactly two numbers, the second is `557 + flag` and the first is at most `i64::MAX`. A success is a non-negative key whose packed pair is what the string decodes to. |
| `Destru.DecodeSqidsDebug` | src/lib.rs:63-67 | A debug build panics exactly when the string decodes to two numbers with the second below 557. Otherwise it agrees with the release reading. |
| `Destru.DebugDecodePanicsOnLowTag` | src/lib.rs:65 | The string that a round-tripping codec mints from `[v, m]` with `m < 557` panics in a debug build and is `InvalidID` in a release build. |
| `Destru.DecodeEncoded` | src/lib.rs:34-74 | With a round-tripping codec, decoding under flag f what `encode_sqids` produced under f gives back the value. |
| `Destru.DecodeOtherFlagRejected` | src/lib.rs:34-74 | A string encoded under one flag is `InvalidID` under any other flag. |
| `Destru.TimestampAsUsize` | src/lib.rs:107 | The `as usize` cast of the expiry keeps a non-negative timestamp. A negative `i64` timestamp becomes `t + 2^64`. |
| `Destru.GenerateClaims` | src/lib.rs:104-108 | The claims exist iff encoding the user under flag 0 succeeds, so a negative user id is the `unwrap` panic. The expiry is the cast timestamp. |
| `Destru.ClaimsNameUser` | src/lib.rs:104-108 | With a round-tripping codec, the claims' `user` decodes back to the user's key under flag 0. The expiry is the timestamp itself when it is non-negative. |
| `Ids.Flag` | src/models/ids.rs:58-59 | `UserID` is instantiated with flag 0 (`USER_FLAG`) and `StructureID` with flag 1 (`STRUCTURE_FLAG`), and no other kind has either flag. |
| `Ids.FlagsDistinct` | src/models/ids.rs:6-7 | `USER_FLAG` and `STRUCTURE_FLAG` differ: two kinds share a flag iff they are the same kind. |
| `Ids.From` | src/models/ids.rs:14-18 | `From<i64>` wraps the key unchanged. |
| `Ids.Serialize` | src/models/ids.rs:20-28 | Serialization fails with `InvalidID` exactly for a negative key. For a non-negative key it returns the codec's encoding of `[key, 557 + flag of the kind]` when the codec succeeds, and the codec's message as `Internal` when it fails. |
| `Ids.Deserialize` | src/models/ids.rs:30-54 | Succeeds iff decoding under the kind's flag succeeds, and then gives that kind's wrapper around the decoded key. Every failure is `InvalidID`. |
| `Ids.DeserializeSerialized` | src/models/ids.rs:20-54 | With a round-tripping codec, deserializing a serialized `UserID` or `StructureID` as its own type gives it back. |
| `Ids.NoCrossKindConfusion` | src/models/ids.rs:44-59 | With a round-tripping codec, a serialized `UserID` fails to deserialize as a `StructureID`, and vice versa. |
| `UserTokens.DeleteWhere` | src/routes/auths.rs:109-123 | A `DELETE ... WHERE` removes exactly the rows its condition matches and keeps the rest. |
| `UserTokens.DeleteSparesOthers` | src/routes/auths.rs:109-123 | The two per-user deletes leave every other user's rows, in order, as they were. |
| `UserTokens.DeleteKeepsIdsIncreasing` | src/routes/auths.rs:109-123 | A delete keeps the table ordered by id. |
| `UserTokens.TrimStep` | src/routes/auths.rs:117-123 | In an id-ordered table, the trim drops the first row iff it is the user's and at least `keep` of the user's rows follow it. |
| `UserTokens.TrimCount` | src/routes/auths.rs:117-123 | In an id-ordered table, the trim leaves the user min(their row count, `keep`) rows. |
| `UserTokens.TrimKeepsNewest` | src/routes/auths.rs:118 | A user's row survives the trim only if all of that user's rows with larger ids survive too. |
| `UserTokens.Issue` | src/routes/auths.rs:109-133 | The login's delete-expired, trim and insert sequence. The new row ends the table, and every other row was already in it. |
| `UserTokens.IssueBound` | src/routes/auths.rs:109-133 | After a login the user holds min(unexpired rows, 5) + 1 rows, so at most 6. |
| `UserTokens.IssueSparesOthers` | src/routes/auths.rs:109-133 | A login leaves every other user's rows unchanged. |
| `UserTokens.IssueDropsExpired` | src/routes/auths.rs:109-133 | After a login the new row is last. Every other row of the user was already present and has `expired >= dbNow`, because the comparison is strict. |
| `UserTokens.IssueKeepsIdsIncreasing` | src/routes/auths.rs:109-133 | With a fresh larger id for the new row, the table stays ordered by id. |
| `UserTokens.DeleteNothing` | src/routes/auths.rs:197-203 | Deleting by a token no row carries leaves the table unchanged. |
| `UserTokens.RevokeIdempotent` | src/routes/auths.rs:197-203 | After logout no row carries the token, and a second logout with it changes nothing. |
| `Auths.MatchRepeat` | src/routes/auths.rs:15-16 | The left-to-right scan of an anchored `^[class]{lo,hi}$` accepts only strings of `lo` to `hi` characters. `MatchRepeatIff` gives the exact characterization. |
| `Auths.MatchRepeatIff` | src/routes/auths.rs:15-16 | The anchored pattern `^[class]{lo,hi}$` accepts exactly the strings of `lo` to `hi` characters, all in the class. |
| `Auths.IsValidName` | src/routes/auths.rs:15 | A name is accepted iff it has 3 to 100 characters, each in `[0-9a-zA-Z_-]`. |
| `Auths.IsValidPassword` | src/routes/auths.rs:16 | A password is accepted iff it is exactly 64 hex digits, in either case. |
| `Auths.LoginExpiry` | src/routes/auths.rs:101-105 | Expiry is `now` + 30 days when remember is `Some(true)`, and `now` + 24 hours otherwise, including when it is absent. |
| `Auths.FindUser` | src/routes/auths.rs:88-93 | The lookup by name finds nothing iff no row has that name. A row it finds is in the table and has that name. |
| `Auths.CheckLogin` | src/routes/auths.rs:72-100 | The login decision checks, in order: empty name gives `InvalidName`, empty password gives `InvalidPassword` (no pattern applied), unknown name gives `NotFound`, failed verification gives `Unauthorized`. It succeeds exactly when both fields are non-empty, the name is found and the stored hash verifies the password, and then gives that row's id. |
| `Auths.NewUser` | src/routes/auths.rs:54-63 | The inserted row carries the new id, the name and a hash of the password. With a faithful hasher that hash verifies the registered password and no other. |
| `Auths.RegisteredUserLogsIn` | src/routes/auths.rs:37-100 | With a faithful hasher, a name registered with a password logs in with that password and yields the new id. |
| `Auths.RegisteredUserWrongPassword` | src/routes/auths.rs:37-100 | With a faithful hasher, any other non-empty password is `Unauthorized`. |
| `Auths.Store.Register` | src/routes/auths.rs:19-68 | The name is checked before the password, and a missing field reads as empty. A taken name gives `NameExists`. It succeeds exactly when the name and password match their patterns and the name is not taken, and a success appends exactly the row (new id, name, hash). Every rejection leaves `users` unchanged. `user_tokens` is never touched. |
| `Auths.Store.DeleteExpiredTokens` | src/routes/auths.rs:109-115 | The table becomes the old one minus the user's rows with `expired < dbNow`. |
| `Auths.Store.DeleteExcessTokens` | src/routes/auths.rs:117-123 | The table becomes the old one minus the user's rows outside the 5 highest ids. The user keeps min(count, 5) rows. |
| `Auths.Store.InsertToken` | src/routes/auths.rs:125-133 | The new row is appended and the table stays ordered by id. |
| `Auths.Store.Login` | src/routes/auths.rs:70-186 | A rejection carries `CheckLogin`'s error. An abort happens only after a successful check when the claims cannot be built. Neither changes a table. A success returns `UserID(id)`, the signed claims as token and the expiry rule's time. The token table becomes `Issue` of the old one: other users unchanged, at most 6 rows for this user. |
| `Auths.Store.Logout` | src/routes/auths.rs:188-205 | Without a cookie the handler panics and nothing changes. With one, exactly the rows carrying its value are deleted. |
| `StructureModel.ToPreview` | src/model/structure.rs:18-25 | Defined iff there is an image and a creator. Then it copies id and name, and takes the first image's URL and the first creator's name. |
| `StructureModel.FromStructure` | src/model/structure.rs:37-44 | Gives the same preview as `to_preview`. |
| `StructureModel.PreviewIgnoresRest` | src/model/structure.rs:18-25 | Two structures that agree on id, name, first image URL and first creator name have the same preview. |
| `Pagination.GetPage` | src/model/pagination.rs:17-19 | The page supplied, or 1 when absent. |
| `Pagination.GetSize` | src/model/pagination.rs:21-23 | The size supplied, or 24 when absent. |

## Left out

- Sqids internals (alphabet, minimum length 6, blocklist): foreign code. The engine is the `Codec` parameter, and only the round-trip promise is assumed.
- Argon2 (`hash_password`, `verify_password`): foreign cryptography with a random salt. Hashing is `Crypto.hash` with the salt as an input. The `unwrap` on a hashing failure is not modelled.
- JWT signing: a foreign library. It is the `sign` function of `Services`. Only the claims record is modelled. `sign` is total, so the `unwrap` on `jsonwebtoken::encode` (src/lib.rs:109) is not modelled: a signing failure cannot abort a login here.
- Transactions, `begin` and `commit`, and the `unwrap`/`expect` panics on storage failure: storage never fails in this model. The `Err(_)` branch of the login lookup (a 500 answer) is therefore not modelled.
- HTTP responses and cookie construction, including the debug and release `SameSite`/domain variants and the cookie expiry conversion: presentation only.
- Concurrent logins for one user: isolation between transactions is not sequential logic. Each handler runs alone on the `Store`.
- Clock arithmetic: sub-second precision and `chrono` overflow on adding the session lifetime are not modelled, since time is an unbounded integer of seconds.
- The listing and detail routes, the users routes and the handlers (`src/routes/structures.rs`, `src/routes/users.rs`, `src/handler/`): database query glue. The page offset `(page - 1) * size` in the listing route is not part of this model.
- Startup, configuration, routing and the plain data declarations under `src/models/` and `src/model/`: no logic. The model only uses the fields the core reads.

## Findings

| source | as written | input that shows it | evidently intended | confidence | as-written member | corrected member |
|---|---|---|---|---|---|---|
| src/lib.rs:65 | `m - MAGIC_VALUE` is an unchecked `u64` subtraction. A debug build panics when the decoded tag is below 557. | Any public string that Sqids decodes to two numbers with the second below 557, e.g. the encoding of `[1, 0]`. | Reject the string as `InvalidID`, as the release build does by wrap-around. | medium, not executed | `Destru.DebugDecodePanicsOnLowTag` | `Destru.DecodeSqids` |
