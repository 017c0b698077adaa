# Auth state machine and in-memory stores of the kanban board's user service

This project models the account subsystem of the kanban board backend in Dafny
and proves properties of it. The subsystem has two parts:

- **The auth service** (`ports.AuthService`). It runs sign-up, log-in,
  log-out, access-token decoding and access-token regeneration over a user
  store, a refresh-token store and an access-token store.
- **The in-memory stores** it can run over. These are the backend's user
  store and user-metadata store, and the session store of the earlier
  cookie-based iteration.

Each store is a class. Its slice is a `seq` field and its counter is a `nat`
field. Records are held by value. Each mutating method states the new slice
in terms of the old one. Each lookup that returns a record or a position is a
`while` loop proved against `Slices.FirstIndex`, a single definition of "index
of the first match, or -1". The existence check `CheckByEmail` is stated with
an `exists` over the slice instead, and `NativeUserStore.CheckAgreesWithFind`
ties it to `FirstIndex`.

The auth service is a class built from three parts:

- a `NativeUserStore.UserStore`;
- two map-backed token stores (`TokenStores`);
- bcrypt, given as two functions: `hashPassword`, which returns `None` when
  hashing fails, and `verifyPassword`.

Wall-clock time is an integer instant `now`, in seconds, passed to each
operation that reads the clock. Failures are values of `Users.Error`, which
carries an operation label, an optional code, a message and a wrapped cause.
`Users.CodeOf` is the code a caller reads off a failure: the first explicit
code down the chain of causes, and EINTERNAL when there is none. The Go error
file that defines `users.ErrorCode` is not part of this model. `CodeOf`
follows how the handlers read codes from wrapped errors
(`backend/internal/users/handlers/http.go:86-91` treats LogIn's wrapped
store ENOTFOUND as a not-found).

Two facts about the service's results:

- SignUp returns the stored record *with* its password hash
  (`auth_service.go:39-46`).
- LogIn's "not found" is the store's own ENOTFOUND, carried through an error
  that has no code of its own (`auth_service.go:56-58`).

Access tokens are checked twice, against two reads of the clock. The JWT
library's parse reads it first and rejects a token whose `exp` claim is set
and lies before that instant, as a library error that reads as EINTERNAL.
Only a token that passes it reaches the service's own EEXPIRED check, which
reads the clock again (`auth_service.go:111-113`). With the JWT store that
check fires only for a token whose `exp` is 0, which the library treats as
"no expiry", or for one whose `exp` second ends between the two reads.

## Model

| member | source | states |
|---|---|---|
| `Users.CodeOf` | backend/internal/users/handlers/http.go:87 | an explicit code on an error is the code a caller reads; an error with neither code nor cause, and a library error, read as EINTERNAL |
| `Users.WrapKeepsCode` | backend/internal/users/handlers/http.go:86-91 | wrapping an error with an operation label leaves the code a caller reads unchanged |
| `Strconv.Itoa` | backend/internal/users/repository/native/user.go:21 | the decimal rendering of a counter is non-empty, all digits, and has no leading zero unless the counter is 0 |
| `Strconv.DecimalValueOfItoa` | backend/internal/users/repository/native/user.go:19-21 | reading back a rendered identifier gives the counter it came from |
| `Strconv.ItoaInjective` | backend/internal/users/repository/native/user.go:19-21 | distinct counter values give distinct identifiers |
| `Slices.FirstIndex` | internal/users/repository/native/session.go:55-63 | the result is -1 exactly when no element has the key; otherwise it is the smallest index whose element has the key |
| `Slices.RemoveAt` | internal/users/repository/native/session.go:51 | splicing out element i shortens the slice by one, keeps the elements before i, and shifts the ones after i down, in order |
| `Slices.RemoveAtKeepsDistinct` | backend/internal/users/repository/native/user.go:35 | splicing never makes two keys collide |
| `Slices.RemoveAtKeepsIncreasing` | backend/internal/users/repository/native/user.go:35 | splicing keeps elements in increasing order of their rank |
| `Slices.AppendFreshKeepsDistinct` | backend/internal/users/repository/native/user_metadata.go:25 | appending an element whose key is absent keeps keys distinct |
| `Slices.NoReplay` | internal/users/repository/native/session.go:43-53 | with distinct keys, once the element found for a key is spliced out, a search for that key finds nothing |
| `NativeUserStore.UserStore.constructor` | backend/internal/users/repository/native/user.go:14-16 | a new store is empty, its counter is 0, and its invariant holds |
| `NativeUserStore.UserStore.Insert` | backend/internal/users/repository/native/user.go:18-25 | always succeeds, with no email check. Bumps the counter and stamps the user with the counter's decimal string ("1" first). Appends that user, leaving earlier entries alone. The new identifier is unused. Identifiers stay strictly increasing as numbers and bounded by the counter |
| `NativeUserStore.UserStore.Remove` | backend/internal/users/repository/native/user.go:32-45 | splices out the first user whose identifier matches and keeps the others in order. With no match it returns ENOTFOUND and the slice is unchanged. Removal keeps stored emails pairwise distinct |
| `NativeUserStore.UserStore.FindById` | backend/internal/users/repository/native/user.go:47-59 | returns the first user with that identifier, or ENOTFOUND when none has it |
| `NativeUserStore.UserStore.FindByEmail` | backend/internal/users/repository/native/user.go:61-73 | returns the first user with that email, or ENOTFOUND when none has it |
| `NativeUserStore.UserStore.CheckByEmail` | backend/internal/users/repository/native/user.go:75-83 | true exactly when some stored user has the email; it never fails |
| `NativeUserStore.CheckAgreesWithFind` | backend/internal/users/repository/native/user.go:61-83 | the existence check answers true exactly when the lookup by email succeeds |
| `NativeUserStore.IdsDistinct` | backend/internal/users/repository/native/user.go:19-22 | identifiers that increase as numbers along the slice are pairwise distinct |
| `NativeSessionStore.Find` | internal/users/repository/native/session.go:55-63 | returns the index of the first session with the ID. Returns -1 with ENOTFOUND exactly when no session has it |
| `NativeSessionStore.SessionStore.constructor` | internal/users/repository/native/session.go:15-17 | a new store is empty, its counter is 0, and its invariant holds |
| `NativeSessionStore.SessionStore.Create` | internal/users/repository/native/session.go:19-30 | the session is named after the counter *before* it is bumped ("0" first). It carries the user and expires 600 s after now. It is appended, leaving existing sessions alone, and its name was unused |
| `NativeSessionStore.SessionStore.Get` | internal/users/repository/native/session.go:32-41 | returns the session at the first match, or an error wrapping ENOTFOUND |
| `NativeSessionStore.SessionStore.Delete` | internal/users/repository/native/session.go:43-53 | splices out exactly the found session and keeps the rest in order. An unknown ID fails and leaves the slice unchanged. Afterwards no session has that ID, so a later Get of it fails (no replay). Names stay distinct and below the counter |
| `NativeSessionStore.NamesDistinct` | internal/users/repository/native/session.go:19-27 | sessions ordered by counter value have pairwise distinct names |
| `NativeSessionStore.FreshNameUnused` | internal/users/repository/native/session.go:21-26 | a name rendered from a counter value the store has reached or passed is not held by any stored session |
| `NativeUserMetadataStore.UserMetadataStore.constructor` | backend/internal/users/repository/native/user_metadata.go:12-14 | a new store is empty and holds at most one record per user |
| `NativeUserMetadataStore.UserMetadataStore.Update` | backend/internal/users/repository/native/user_metadata.go:16-27 | returns no error. For a present user id, only that record's name and image URL are overwritten. Otherwise the record is appended. At most one record per user is preserved |
| `NativeUserMetadataStore.UserMetadataStore.Get` | backend/internal/users/repository/native/user_metadata.go:29-37 | returns the first record for the user id, or ENOTFOUND |
| `NativeUserMetadataStore.UpsertFrame` | backend/internal/users/repository/native/user_metadata.go:17-26 | one of two things happens. Either the length and every other record are unchanged and the matched record gets the new name and image URL. Or no record matched and the new one is the last |
| `NativeUserMetadataStore.UpsertThenGet` | backend/internal/users/repository/native/user_metadata.go:16-37 | round trip: after an upsert of u, a lookup of u's user id finds a record with u's name and image URL |
| `NativeUserMetadataStore.UpsertKeepsDistinct` | backend/internal/users/repository/native/user_metadata.go:17-26 | an upsert keeps at most one record per user id |
| `TokenStores.RefreshTokenStore.constructor` | backend/internal/users/repository/redis/refresh_token.go:23-25 | a new refresh store holds no tokens |
| `TokenStores.RefreshTokenStore.Create` | backend/internal/users/repository/redis/refresh_token.go:27-54 | mints a token for the user under an unused identifier, expiring one lifetime after now, and adds exactly that token |
| `TokenStores.RefreshTokenStore.Encode` | backend/internal/users/core/ports/refresh_token_store.go:11 | the encoding of a held token is the key it is held under, so decoding it finds that token |
| `TokenStores.RefreshTokenStore.Delete` | backend/internal/users/core/ports/refresh_token_store.go:10 | removes exactly the presented token, or fails with ENOTFOUND and changes nothing. Either way the token is no longer held |
| `TokenStores.RefreshTokenStore.VerifyAndDecode` | backend/internal/users/repository/redis/refresh_token.go:70-92 | an unknown or revoked token fails with ENOTFOUND. A token expiring strictly before now decodes to nothing. Otherwise it returns the stored token |
| `TokenStores.RevokeAsWritten` | backend/internal/users/repository/redis/refresh_token.go:56-68 | the Redis revoke as written deletes the key and reports an error exactly when DEL replies `redis.Nil` |
| `TokenStores.RevokeAsWrittenAcceptsUnknown` | backend/internal/users/repository/redis/refresh_token.go:59-61 | revoking a key that is not stored changes nothing and returns no error: DEL's count reply never takes the ENOTFOUND branch |
| `TokenStores.AccessTokenStore.constructor` | backend/internal/users/repository/jwt/access_token.go:20-22 | a new access store keeps its expiry duration and signing function and has signed nothing |
| `TokenStores.AccessTokenStore.Create` | backend/internal/users/repository/jwt/access_token.go:24-29 | the claims carry the user and expire exactly one expiry duration after now |
| `TokenStores.AccessTokenStore.Encode` | backend/internal/users/repository/jwt/access_token.go:54-70 | the encoding is the signature of the claims alone, so equal claims give the same string; it records that encoding with its claims and keeps every recorded encoding equal to the signature of its claims |
| `TokenStores.AccessTokenStore.VerifyAndDecode` | backend/internal/users/repository/jwt/access_token.go:32-52 | succeeds exactly for an encoding this store signed whose `exp` claim the library accepts at now (0, or not before now), returning the signed claims. Any other string, and a token past its set expiry, fail with a library error, which reads as EINTERNAL |
| `Ports.AccessVerdict` | backend/internal/users/core/ports/auth_service.go:103-115 | a decoding failure is passed on. A nil token is EINVALID. A token whose expiry is strictly before now is EEXPIRED. Otherwise the token is returned unchanged, so one expiring exactly at now is accepted |
| `Ports.AuthService.constructor` | backend/internal/users/core/ports/auth_service.go:17-19 | the service is wired to the given stores and bcrypt functions |
| `Ports.AuthService.SignUp` | backend/internal/users/core/ports/auth_service.go:24-47 | an email already stored gives ECONFLICT with the store untouched. A hashing failure gives EINTERNAL with the store untouched. Otherwise the user is inserted with its password replaced by its hash and returned as stored. Sign-ups keep stored emails pairwise distinct |
| `Ports.AuthService.LogIn` | backend/internal/users/core/ports/auth_service.go:52-86 | an unknown email fails with the store's ENOTFOUND, and a password that does not verify fails with ECONFLICT. Neither mints a token and both return empty encodings. Otherwise exactly one refresh token and one access token are added, both for the stored user's id. The refresh encoding is unused before; the access encoding is the signature of the new claims, so two log-ins of one user in the same second return the same access token |
| `Ports.AuthService.LogOut` | backend/internal/users/core/ports/auth_service.go:90-98 | delegates to the refresh store's delete: a held token is revoked; otherwise an error wrapping ENOTFOUND, with nothing changed |
| `Ports.AuthService.DecodeAccessToken` | backend/internal/users/core/ports/auth_service.go:100-116 | applies the verdict, at the service's clock read, to the store's decoding at the earlier parse read. It succeeds exactly for a signed encoding whose expiry is not before the service's read, and then returns the signed claims. A signed token past a set expiry at the parse reads as EINTERNAL; EEXPIRED is read exactly for a signed token expired at the service's read whose expiry is 0 or not before the parse read |
| `Ports.AuthService.RegenerateAccessToken` | backend/internal/users/core/ports/auth_service.go:118-140 | a refresh token that fails to decode gives ENOTFOUND, and one that decodes to nil gives EINVALID. Neither mints an access token. Otherwise the access token for the refresh token's user id, expiring one expiry duration after now, is signed and recorded; its encoding is the signature of those claims |

## Left out

- HTTP handlers, middleware, request and response models, configuration and wiring are not part of this model. The Postgres and Redis stores, logging and the JSON helper are not part of it either.
- bcrypt is not modelled. Hashing and verification are functions the service is built with. A real bcrypt hash is salted at random, so hashing the same password twice gives different strings; the model's `hashPassword` is a deterministic function. Nothing links `verifyPassword` to `hashPassword`.
- Ports.AuthService.LogIn: reads the clock once, as `now`, for both new tokens; the source reads it separately in the refresh store's and the access store's `Create`, so their expiries may fall one second apart.
- Ports.AuthService.RegenerateAccessToken: reads the clock once, as `now`, for the refresh token's expiry check and the new access token's expiry; the source reads it in each store call.
- Time has whole seconds only. `time.Now()` is the parameter `now`, and sub-second precision is dropped, as the comparisons at auth_service.go:111 and refresh_token.go:87 also drop it.
- Records are held by value. The Go stores keep pointers. SignUp writes the hash into the caller's struct (`auth_service.go:39`), `Insert` writes the identifier into it, `Get`/`Find` hand out shared pointers, and the metadata `Update` appends the caller's pointer. Any later change made through such a pointer is not modelled.
- `UserStore.Update` in native/user.go is not modelled: it panics ("implement me").
- Some error branches of the auth service never fire against the composed stores, and the model does not include them:
  - a failing `CheckByEmail` (auth_service.go:28-30);
  - a failing `Insert` (auth_service.go:42-44);
  - a failing refresh `Create`/`Encode` (auth_service.go:67-73);
  - a failing access `Create`/`Encode` (auth_service.go:76-83 and 130-137).
- There is no implementation of the refresh-token store interface (`ports/refresh_token_store.go`) in the source. `TokenStores.RefreshTokenStore` is a map-backed store. Where the Redis refresh store (`redis/refresh_token.go`, which implements the older `RefreshStore` interface) shows a behaviour, the model takes it:
  - an expired token decodes to nil;
  - a token's encoding is its identifier;
  - identifiers are decimal serials rather than UUIDs.

  Its lifetime is a constructor parameter. The interface's `Get(tokenId)` is not used by the service and is not modelled.
- TokenStores.RefreshTokenStore.Delete: fails with ENOTFOUND for a token that is not held, because the store is meant to reject a revoke of an absent token. The Redis `Revoke` it stands beside never does: go-redis's DEL replies with a count, never `redis.Nil`, so an unknown token is accepted silently (see Findings).
- TokenStores.AccessTokenStore.Encode: HS256 is not modelled. Signing is a function `sign` of the claims that the store is built with; the model does not state that distinct claims give distinct strings. The JWT string format and its base64 and JSON layers are not modelled.
- TokenStores.AccessTokenStore.VerifyAndDecode: accepts only the encodings this store has handed out, rather than any string that carries a valid signature under the key, so a token signed by another process with the same key is not modelled. Of golang-jwt's claim validation only the `exp` check is modelled; `iat` and `nbf` are never set by `Encode` and pass.
- Counters are unbounded `nat`. Go's `int` could in principle wrap after 2^63 inserts; that is not modelled.
- Error messages are carried as plain strings. `users.ErrorMessage` and the error file's formatting are not part of this model.
- Concurrency is out of scope, including the check-then-insert race on email uniqueness. All operations are sequential.
- `ports/user_service.go` only wraps the metadata store's errors and is not modelled.

## Findings

| source | as written | input that shows it | evidently intended | confidence | as-written member | corrected member |
|---|---|---|---|---|---|---|
| backend/internal/users/repository/redis/refresh_token.go:59-61 | `Revoke` reports ENOTFOUND only when DEL's error is `redis.Nil`, which DEL never returns | revoking a token that is not (or no longer) stored: DEL replies 0 and `Revoke` returns nil | revoking an absent token fails with ENOTFOUND | medium, not executed | `TokenStores.RevokeAsWrittenAcceptsUnknown` | `TokenStores.RefreshTokenStore.Delete` |
