# Chirpy authentication and session core, in Dafny

Chirpy is a small social-posting HTTP service written in Go. This project
models its authentication and session layer, and proves properties of the
model:

- password hashing;
- HS256-signed access tokens (section 4.1 of RFC 7519, section 3.2 of RFC 7518);
- bearer-token extraction (a simplified section 2.1 of RFC 6750);
- hex-encoded refresh tokens (section 8 of RFC 4648).

It also models the decision rules of the handlers built on that layer:

- login, refresh and revoke;
- signup and account update;
- posting a chirp, with its length rule and profanity filter;
- the payment provider's webhook, which sets a user's `IsChirpyRed` flag.

Each handler is a fixed sequence of checks followed by at most one change to
the record store. Each becomes a Dafny method. The method takes the
configuration object `ApiConfig`, whose `Queries` store is a class with
`users`, `refreshTokens` and `chirps` maps. Its contract names the response
for every path and the exact new state of the store.

## Files

| file | module | contents |
|---|---|---|
| `wrappers.dfy` | `Wrappers` | `Option` and `Result` |
| `text.dfy` | `Text` | Go's `strings.Split`/`Join`/`TrimSpace`/`ToLower` and `len` |
| `hex.dfy` | `Hex` | `encoding/hex` and its round trip |
| `uuid.dfy` | `Uuid` | `UUID.String` and `uuid.Parse` of `google/uuid`, and their round trip |
| `auth.dfy` | `Auth` | the `internal/auth` package |
| `database.dfy` | `Database` | the record store the handlers call through `cfg.sql` |
| `server.dfy` | `Server` | `apiConfig`, the response model, `writeErrorJson`/`writeSuccessJson` |
| `session.dfy` | `Session` | `createSession`, `refreshSession`, `revokeSession` |
| `chirps.dfy` | `Chirps` | `replaceProfane` and `createChirp` |
| `users.dfy` | `Users` | `createUser` and `updateUser` |
| `webhooks.dfy` | `Webhooks` | `polkaWebhook` |
| `scenarios.dfy` | `Scenarios` | end-to-end call sequences proved from the handlers' contracts |

## How the outside world enters

- **Time:** an integer count of nanoseconds. Each request gets one `now`.
  `jwt.NewNumericDate` truncates to whole seconds, and the model does too
  (`Auth.NumericDate`).
- **Cryptography:** the HS256 signer and verifier are function values in
  `Auth.Jws`; bcrypt is the same, in `Auth.Bcrypt`. What the model assumes of
  them is stated as ghost predicates, which the lemmas that need them
  require:
  - `Auth.Sound`: a signed token verifies under its secret with the claims
    it was signed over when their times are whole seconds within the range a
    `NumericDate` carries exactly (up to 2^53 seconds, because the parser reads
    it through a float64), and it holds no space;
  - `Auth.KeyPadded`: HMAC pads a key of at most 64 bytes with zero bytes, so
    two such secrets that differ only in trailing NUL characters verify every
    token alike;
  - `Auth.SecretBinding`: a token verifies under no secret whose padded HMAC
    key differs (an idealisation, see below);
  - `Auth.Verifies`: a hash verifies against its password;
  - `Auth.Binding`: a hash verifies against no other password.
- **Randomness:** the 32 bytes from `crypto/rand` are an `Option` input
  (`None` means the read failed). The salt bcrypt draws is an input, and so
  are the ids the database generates.
- **Requests:** a decoded JSON body is an `Option` of the parameters struct
  (`None` means decoding failed). The `Authorization` header value is a
  string, `""` when it is absent. The webhook's API key is an `Option`.
- **Token checks:** the JWT `exp` check is strict (`now < exp`), `nbf` must
  not be after now, and `iat` is not checked, as in `golang-jwt/jwt/v5`.
- **Store:**
  - The generated SQL queries are not part of this model. Each query is a
    method of `Database.Queries` with the plainest contract its name and
    call site suggest.
  - Whether `GetRefreshTokenByToken` skips revoked rows depends on SQL that
    is not part of this model. It is the store's `lookupSkipsRevoked` flag,
    and the lemmas and scenarios state both readings.
  - Whether `UpdateUserIsChirpyRed` fails for an unknown id depends on SQL
    that is not part of this model too. It is the store's
    `upgradeMissingFails` flag. `Webhooks.PolkaWebhook` states both outcomes
    for an unknown user: 404 when the query fails, 204 when it does not.

## Behaviour of the code worth knowing

- **Login errors:** an unknown email and a wrong password are answered
  differently. An unknown email gets 400 "Couldn't get user"
  (session.go:36-40). A wrong password gets 401 "Incorrect email or
  password" (session.go:42-47). `Session.CreateSession` states both
  responses.
- **Revocation:** the handlers never read `revoked_at` (session.go:96-101
  and 128-133). So a revoked token stays refused only if the lookup query
  filters out revoked rows:
  - `Session.RevokedRefused`: with the filter, a revoked token is never
    accepted again;
  - `Session.RevokedStillActive`: without it, it still is;
  - `Scenarios.RefreshThenRevoke`: shows both readings end to end.

## Model

| member | source | states |
|---|---|---|
| Text.TrimSpace | users.go:30 | the result is a slice of the input: only white space is cut from its ends, and it neither starts nor ends with white space (Go's full `unicode.IsSpace` set) |
| Text.TrimSpaceNoSpace | users.go:30 | a string without white space is its own trim |
| Text.ToLower | internal/auth/auth.go:66 | lower-casing keeps the length; each character is mapped on its own |
| Text.Split | internal/auth/auth.go:65 | `strings.Split` with a one-character separator always yields at least one piece (`""` gives `[""]`) |
| Text.SplitPiecesFree | internal/auth/auth.go:65 | no piece of a split contains the separator |
| Text.JoinSplit | chirps.go:72-85 | joining the pieces of a split with the same separator gives back the string |
| Text.SplitJoin | chirps.go:72-85 | splitting a join of separator-free words gives back the words |
| Text.SplitCons | internal/auth/auth.go:65 | a leading non-separator character extends the first piece |
| Text.SplitWordSep | internal/auth/auth.go:65 | a separator-free word, a separator and a rest split into the word followed by the rest's pieces |
| Text.SplitWord | internal/auth/auth.go:65 | a separator-free word splits into itself alone |
| Text.IsSpace | users.go:30 | an ASCII character is white space exactly when it is one of the six C-locale spaces; the zero-width space and the byte-order mark are not white space |
| Text.Join | chirps.go:85 | the first word leads the result, followed by the separator when more words follow |
| Text.ByteLen | chirps.go:29 | Go's `len`, the UTF-8 byte count, lies between the character count and four times it |
| Text.ByteLenAscii | chirps.go:29 | the byte length equals the character count exactly when the string is ASCII |
| Hex.HexEncodeSnoc | internal/auth/auth.go:79 | encoding one more byte appends its two digits |
| Hex.HexEncodeAt | internal/auth/auth.go:79 | the encoding has two digits per byte, the high nibble's digit first |
| Hex.HexEncodeLowerCase | internal/auth/auth.go:79 | every character of an encoding is a lower-case hex digit |
| Hex.DigitValue | internal/auth/auth.go:79 | each digit of the alphabet decodes to its own position |
| Hex.HexDecode | internal/auth/auth.go:79 | an odd-length string never decodes, and a decoding has half as many bytes as the string has digits |
| Hex.HexRoundTrip | internal/auth/auth.go:79 | hex-decoding an encoding gives back the bytes |
| Uuid.ToStringLayout | internal/auth/auth.go:33 | `UUID.String` is 36 characters with hyphens at 8, 13, 18 and 23 and the hex of each byte group between them |
| Uuid.ToStringAscii | internal/auth/auth.go:33 | `UUID.String` is ASCII |
| Uuid.Extend | internal/auth/auth.go:33 | appending a hyphen and a group keeps the prefix and places the group after it |
| Uuid.Parse | internal/auth/auth.go:51-54 | only an ASCII string of 32, 36, 38 or 45 characters can parse |
| Uuid.ParseToString | internal/auth/auth.go:51-54 | `uuid.Parse(u.String()) == u` for every UUID |
| Uuid.ParseEmpty | internal/auth/auth.go:51-54 | the empty subject is not a UUID |
| Auth.HashPassword | internal/auth/auth.go:16-22 | success returns the bcrypt hash of the password; failure returns `""` and an error |
| Auth.CheckPasswordHash | internal/auth/auth.go:24-26 | no error exactly when bcrypt accepts the password for the hash |
| Auth.PasswordRoundTrip | internal/auth/auth_test.go:11-23 | a password checks against the hash `HashPassword` made of it |
| Auth.WrongPasswordRefused | internal/auth/auth.go:24-26 | any other password is refused by that hash (under `Binding`) |
| Auth.NumericDate | internal/auth/auth.go:30-31 | the instant is truncated down to a whole second; for an instant in range the result is a time a token carries unchanged |
| Auth.NumericDateShift | internal/auth/auth.go:29-31 | truncation commutes with adding whole seconds |
| Auth.IssuedClaims | internal/auth/auth.go:29-34 | for instants in range, every time in the signed claims is a whole second the token carries unchanged |
| Auth.MakeJWT | internal/auth/auth.go:28-36 | succeeds exactly when signing the issued claims succeeds; otherwise gives `""` and an error |
| Auth.MakeJWTClaims | internal/auth/auth.go:29-34 | for instants in range, a token carries issuer "chirpy", the UUID string as subject, issued-at now and expiry now + `expiresIn` from the same instant (exactly `iat + expiresIn` for whole seconds) |
| Auth.MakeJWTCompact | internal/auth/auth.go:35 | a minted token holds no space (needs only the no-space clause of `Sound`) |
| Auth.TimeValid | internal/auth/auth.go:39-44 | a claim set valid at now with both `nbf` and `exp` has `nbf` strictly before `exp` |
| Auth.ParseWithClaims | internal/auth/auth.go:39-44 | the claims are returned exactly when the signature verifies under the secret and `exp`/`nbf` hold at now |
| Auth.ValidateJWT | internal/auth/auth.go:38-57 | returns the parsed subject exactly when the signature, the time claims and `uuid.Parse` of the subject all succeed; otherwise `uuid.Nil` and an error |
| Auth.JWTRoundTrip | internal/auth/auth_test.go:25-39 | `ValidateJWT(MakeJWT(u, s, d), s)` returns `u` at every time before the expiry |
| Auth.JWTExpires | internal/auth/auth.go:39-44 | from the expiry on, the same token is refused as expired, with `uuid.Nil` |
| Auth.JWTWrongSecret | internal/auth/auth.go:39-44 | under `SecretBinding`, a token is refused under any secret of at most 64 bytes whose HMAC key differs |
| Auth.JWTPaddedSecret | internal/auth/auth.go:35-44 | a secret with the same HMAC key (trailing NULs added or dropped) accepts the token like its own secret, until the expiry |
| Auth.StripNul | internal/auth/auth.go:35-40 | the secret without its trailing NULs: a prefix, ending in no NUL, with only NULs cut |
| Auth.NulPaddedSecretsAlike | internal/auth/auth.go:35-40 | "k" and "k" followed by a NUL are the same HMAC key |
| Auth.GetBearerToken | internal/auth/auth.go:59-71 | an empty header gives "authorization header not found"; success means the header is `scheme + " " + token` with the scheme lower-casing to "bearer" and a space-free token; every error returns `""` |
| Auth.BearerSchemeFree | internal/auth/auth.go:66 | a scheme that lower-cases to "bearer" contains no space |
| Auth.BearerRoundTrip | internal/auth/auth.go:65-70 | any space-free token, including `""`, behind any-case "bearer " is returned verbatim |
| Auth.BearerRejected | internal/auth/auth.go:65-68 | any other non-empty header is "invalid authorization header" |
| Auth.BearerExample | internal/auth/auth_test.go:41-47 | "bearer TOKEN_STRING" gives "TOKEN_STRING" |
| Auth.BearerDoubleSpace | internal/auth/auth.go:65-68 | "Bearer  x" (two spaces) is refused |
| Auth.BearerSchemeOnly | internal/auth/auth.go:65-68 | "Bearer" alone is refused |
| Auth.BasicSchemeRefused | internal/auth/auth.go:65-68 | "Basic xyz" is refused |
| Auth.ReadRandom | internal/auth/auth.go:74-78 | the buffer is filled with the random source's bytes in place, or unchanged with an error when the source fails |
| Auth.EncodeToString | internal/auth/auth.go:79 | the loop builds exactly the hex encoding of the buffer |
| Auth.MakeRefreshToken | internal/auth/auth.go:73-81 | 64 lower-case hex digits encoding the 32 random bytes, which decode back to them; `""` and an error when the source fails |
| Database.Upgraded | webhooks.go:40-43 | the flag is set; every other field is as before |
| Database.UpgradedIdempotent | webhooks.go:40-43 | setting the flag twice is setting it once |
| Database.Queries.UserWithEmail | session.go:36 | some user has the email exactly when a record is returned, and the record is that user |
| Database.Queries.GetUserByEmail | session.go:36-40 | returns the one user with the email, if any |
| Database.Queries.CreateUser | users.go:42-46 | inserts a new, non-member user unless the id or the email is taken, keeping ids and emails unique |
| Database.Queries.UpdateUser | users.go:100-104 | replaces email and hash of an existing user unless another user has the email |
| Database.Queries.UpgradeUser | webhooks.go:40-48 | sets the flag of an existing user and changes no other; for an unknown id changes nothing, failing exactly when the store's `upgradeMissingFails` reading holds |
| Database.Queries.Lookup | session.go:96-97 | a record returned is the stored one, unrevoked when the lookup skips revoked rows |
| Database.Queries.GetRefreshTokenByToken | session.go:96-97 | returns `Lookup(token)` and changes nothing |
| Database.Queries.CreateRefreshToken | session.go:62-70 | inserts an unrevoked record unless the token is already stored |
| Database.Queries.RevokeRefreshTokenByToken | session.go:135-139 | stamps the revocation time of the stored record only; fails for an unknown token |
| Database.Queries.CreateChirp | chirps.go:50-57 | inserts the chirp unless its id is taken |
| Server.WriteErrorJson | utils.go:11-21 | the error body carries the message; the status is 400 unless a status was written first, in which case that status stands |
| Server.WriteSuccessJson | utils.go:23-32 | the given status, 200 when none is given; `nil` means no body |
| Server.EmailLongEnough | users.go:30-34 | for an ASCII trimmed email, the 5-byte minimum is a 5-character minimum |
| Server.UserView | users.go:48-54 | a user response carries id, timestamps and email, never the hash |
| Session.ActiveToken | session.go:89-101 | a refresh or revoke request is accepted exactly when the bearer parses, the lookup finds the token and its expiry is not before now (equal is accepted) |
| Session.RevokedRefused | session.go:128-133 | with a lookup that skips revoked rows, a revoked token is never accepted |
| Session.RevokedStillActive | session.go:96-101 | with a plain lookup, a revoked unexpired token is still accepted |
| Session.StartSession | session.go:49-83 | a one-hour access token, a stored 60-day refresh token and 200, or 400 with the store unchanged |
| Session.SessionTokenValid | session.go:49-50 | the login's access token names its user until it expires |
| Session.CreateSession | session.go:15-84 | the short email is refused before any lookup; unknown email is 400; wrong password is 401; nothing is stored unless every step passes; a failure after the password check (signing, randomness or a duplicate refresh token) is 400 "Something went wrong"; success stores exactly one new refresh record (user's id, expiry now + 60 days), returns a token valid for the user for one hour, and leaves users and chirps unchanged |
| Session.RefreshSession | session.go:86-116 | 401 unless the token is active; a new one-hour token for the record's user otherwise; no `modifies`, so nothing is rotated or changed |
| Session.RevokeSession | session.go:118-141 | 401 unless the token is active, with nothing changed; otherwise 204, no body, and only that record gets `revokedAt = now` |
| Chirps.IsProfane | chirps.go:75-79 | a banned word has at least six characters |
| Chirps.Censor | chirps.go:76-83 | a word is kept or replaced by "****", and the result is never banned |
| Chirps.Cleaned | chirps.go:72-85 | splitting the cleaned body gives the censored words of the input |
| Chirps.CensorWords | chirps.go:74-84 | one output word per input word, each censored on its own |
| Chirps.CensorWordsSnoc | chirps.go:74-84 | censoring one more word appends its censored form |
| Chirps.ReplaceProfane | chirps.go:71-86 | the append loop builds exactly the cleaned body `Join(CensorWords(Split(body)))` |
| Chirps.MaskClean | chirps.go:77-80 | "****" is not a banned word |
| Chirps.CensorWordsFree | chirps.go:74-84 | censoring keeps words space-free |
| Chirps.CleanedWords | chirps.go:72-85 | the output has as many " "-fields as the input; each is "****" exactly when the input word, lower-cased and trimmed, is banned, and otherwise the word verbatim |
| Chirps.CleanUnchanged | chirps.go:76-83 | a body without banned words is returned unchanged |
| Chirps.CleanIdempotent | chirps.go:77-80 | cleaning twice is cleaning once |
| Chirps.PunctuatedWordKept | chirps.go:76-79 | "kerfuffle!" is kept: the match is exact |
| Chirps.CapitalisedWordCensored | chirps.go:75-80 | "Sharbert" becomes "****": the match ignores case |
| Chirps.AsciiLimit | chirps.go:29-32 | for ASCII bodies the 140-byte limit is a 140-character limit |
| Chirps.CreateChirp | chirps.go:15-69 | a body over 140 bytes is refused before filtering, authentication or storage; bearer or token failure is 401; the stored chirp is the cleaned body under the token's user; 201 echoes it; every failure leaves the store unchanged |
| Users.CreateUser | users.go:15-57 | a short trimmed email is 400; otherwise the trimmed email and the bcrypt hash (never the password) are stored for a new user, with 201 and only id, timestamps and email; a taken email is 400 "Couldn't create user" |
| Users.UpdateUser | users.go:59-115 | bearer or token failure is 401 before the body is read, whatever it holds; only the token's user gets the trimmed email and the new hash; no other user changes; failures change nothing |
| Webhooks.PolkaWebhook | webhooks.go:12-51 | a missing or wrong key is a bare 401; a bad body is 400; any other event is a bare 204; "user.upgraded" sets the flag of `data.user_id` only; an unknown user is 404 when the query fails for it and a bare 204 when it does not; the flag is never cleared and no user appears or disappears |
| Scenarios.TestEmailAccepted | users.go:30-34 | "user@test.io" is its own trim and long enough |
| Scenarios.BearerOf | internal/auth/auth.go:65-70 | "Bearer " and a space-free token give back the token |
| Scenarios.RefreshTokenFree | internal/auth/auth.go:79 | a refresh token holds no space |
| Scenarios.SignUp | users.go:15-57 | signup on an empty store gives 201 and exactly one user holding the hash |
| Scenarios.LogIn | session.go:15-84 | logging in as that user gives 200, the user's fields (its membership flag included), and the stored refresh record; under `Sound`, a token valid for an hour |
| Scenarios.SignUpThenLogIn | session.go:15-84 | signup then login: 200, a token whose subject is the new user, a 64-digit refresh token decoding to the 32 bytes |
| Scenarios.RefreshThenRevoke | session.go:86-141 | two refreshes succeed with the same token (no rotation); revoke is 204; a refresh after revoke is 401 exactly when the lookup skips revoked rows |
| Scenarios.RevokeTwice | session.go:118-141 | a second revoke is 401 with the filtering lookup and 204 without it |
| Scenarios.BasicHeaderRefused | session.go:89-94 | a "Basic" header is 401 whatever the store holds |
| Scenarios.PostChirp | chirps.go:15-69 | a chirp posted with the login's token is stored cleaned under the user who logged in |
| Scenarios.UpgradeThenLogIn | webhooks.go:40-50 | after the upgrade event, the next login reports the user as a member |
| Scenarios.UpgradeUnknownUser | webhooks.go:40-50 | on the `:exec` reading, the upgrade event for an unknown user is a bare 204 |

## Left out

- JSON decoding, header reading, `Content-Type`, and the logging in `writeErrorJson` are I/O. A body is an `Option` of its decoded struct; a response is a status and a body.
- `writeErrorJson` joins its variadic messages with spaces. Every call site passes one message, so the model takes one.
- The double `WriteHeader` (401, then 400) writes a "superfluous WriteHeader" log line; only the status sent is modelled.
- `main.go` holds startup, environment configuration and stale copies of handlers. It is not part of this model; only the handlers in `chirps.go`, `users.go`, `session.go` and `webhooks.go` are.
- The hit counter, `metricsHandler`, `resetHandler` and `healthz` are concurrency and admin I/O. They are not part of this model.
- `indexChirps` and `showChirp` (chirps.go:88-140) only read the store and copy rows into the response. They are not part of this model.
- bcrypt internals, the HS256 computation, base64url serialisation and the signature check are foreign library code. They are function values with stated assumptions.
  - `Auth.Binding` is an idealisation: real bcrypt has collisions, for example among passwords that agree on their first 72 bytes.
  - `Auth.SecretBinding` is an idealisation of HMAC's unforgeability: a collision of HMAC-SHA-256 under two different keys would break it.
  - Secrets longer than 64 bytes are hashed before HMAC uses them. `Auth.SameHmacKey` and `Auth.DistinctHmacKeys` say nothing about them, so no lemma covers them.
  - Times outside 2^53 seconds of the epoch lose precision in the float64 the parser reads. `Auth.Sound` promises the round trip only within that range, so the token lemmas require both the issue and expiry instants to be in it.
- `Auth.ValidateJWT`: every library error is reduced to one `Error` value per failing check. The handlers only test for an error.
  - The `aud`, `jti` and `iat` claims, leeway, and the `alg` header are not modelled. The parser is called without a list of allowed methods, so the library also accepts HS384 and HS512 tokens signed with the same secret. The assumptions constrain `verify` only on tokens `sign` produced, so the model says nothing about such tokens.
  - `GetSubject` on `RegisteredClaims` cannot fail, so its error branch (internal/auth/auth.go:46-49) has no counterpart.
- `Auth.CheckPasswordHash`: bcrypt's distinct error kinds (malformed hash, mismatch) become one mismatch error.
- `Auth.HashPassword`: the over-72-byte password error of newer bcrypt versions is part of the abstract `generate` failing.
- `Uuid.Parse` rejects any string holding a non-ASCII character before it counts characters. The package dispatches on byte length, so this is a claim about the package:
  - In the 36- and 38-byte branches, and in the last 36 bytes of the 45-byte branch, a non-ASCII byte lands where the parser wants a hex digit or a hyphen, or it is the last byte of the braced form. A multi-byte character there also occupies a digit position, so the parse fails.
  - The first 9 bytes of the 45-byte branch are compared with "urn:uuid:" by `strings.EqualFold`, not read as digits. If they hold a non-ASCII byte, they decode to fewer than 9 runes, or to U+FFFD where a rune is cut off; either way they cannot equal those 9 ASCII runes. The only exceptions would be non-ASCII runes that fold to ASCII. There are two, U+212A (to 'k') and U+017F (to 's'), and neither letter occurs in "urn:uuid:".
  - In the 32-byte branch every byte is a digit.
  - The braced 38-byte form ignores its first and last bytes, as the package does.
- `Text.ToLower`: only the case mappings that can make a word equal an ASCII literal are modelled: ASCII letters, U+0130 to 'i', U+212A to 'k'. Other non-ASCII characters are kept. The lower-cased string is only ever compared with ASCII literals, so those comparisons come out the same.
- Database queries: the model assumes their semantics, because the generated code is not part of this model.
  - Rows are keyed by id or token, and emails are unique.
  - Foreign keys, `ON DELETE` behaviour and database errors other than a duplicate or missing row are not modelled.
  - The ids that `gen_random_uuid` makes, and the `NOW()` timestamps, are inputs.
- `UpdateUserIsChirpyRed` for an unknown id: webhooks.go:41 takes a single error from it, the shape of an `:exec` query, which succeeds when no row matches. So the call site points to the 204 reading (`upgradeMissingFails` false). The model states both readings because the SQL is not part of it.
- `Database.Queries.UpgradeUser`: the method leaves every field but the flag as it was, `updated_at` included; the query may also change that column.
- `Database.Queries.RevokeRefreshTokenByToken` cannot fail after the handler's successful lookup. So `revokeSession`'s 400 path for a failed revoke (session.go:136-139) has no counterpart.
- Both `createSession` and `refreshSession` read the clock twice: once in `MakeJWT`, once for the expiry. The model uses one `now` per request.
- Concurrency: requests are modelled one at a time, each a method call on the store.
