# Auth service: tokens, sessions and the HTTP guard

A model of the authentication service of the educational platform's backend,
and proofs about it. The modelled parts are:

- **JWT token manager.** It issues an HS256 access token that lives 30 minutes
  and an HS256 refresh token that lives 7 days, each signed with its own key.
  Parsing checks the algorithm, the signature, the expiry, the not-before
  time, the `type` claim and the issuer, in that order, and returns the `user_id` claim.
- **Auth use case.**
  - Register hashes the password with bcrypt.
  - Login checks the password and stores the new refresh token on the user row.
  - Refresh rotates the refresh token: the presented token must equal the
    stored one.
  - Logout clears the stored token.
  - Me reads the profile of the user an access token names.
- **Postgres user repository.** It is modelled as a map from user id to row.
- **HTTP layer.**
  - The `userIdentity` middleware splits the `Authorization` header on
    spaces, parses the second word, and stores the id under `UserId`.
    `getUserId` reads that id back.
  - The handlers bind the request and map each outcome to a status code.
  - `logout` and `me` strip a leading `"Bearer "` from the header again
    before calling the use case.

Every operation is a pure function.

- **Store.** Each operation takes the store and returns the store after it.
- **Inputs.** The clock (whole seconds), the bcrypt salt and the id the
  database generates are parameters.
- **Libraries.** The three external libraries are values of datatypes whose
  functions are arbitrary:
  - the JWT encoding, `Jwt.Codec`;
  - bcrypt, `Passwords.Bcrypt`;
  - uuid text, `Domain.UuidFormat`.
- **Laws.** The lemmas assume only each library's law:
  - decoding an encoded token gives it back, and a decodable string (three
    base64url segments joined by dots) holds a dot and no space;
  - a password checks against its own hash;
  - parsing a formatted uuid gives it back.
- **Signatures.** Signature verification is modelled as equality of the
  signing key with the expected key.

Files, one module each:

- `wrappers.dfy`: Option and Result.
- `domain.dfy`: uuids, the `User` entity and the error values.
- `jwt.dfy`: the token manager.
- `passwords.dfy`: hashing and checking passwords.
- `user_store.dfy`: the repository.
- `auth_service.dfy`: the use case.
- `sessions.dfy`: properties of call sequences.
- `go_strings.dfy`: `strings.Split` and `strings.TrimPrefix`.
- `http.dfy`: responses.
- `middleware.dfy`: the middleware and `getUserId`.
- `handlers.dfy`: the handlers and the two protected routes.

### Behaviour worth knowing

- **Same-second replay.** Tokens carry no `jti` claim, and `iat`/`exp` have
  one-second resolution. So a refresh in the same second as the login
  re-issues exactly the login's refresh token, and that token survives its
  own rotation. `Sessions.SameSecondRefreshReplays` exhibits this.
  - Single use does hold when the new token differs from the old one
    (`Sessions.RefreshSingleUse`).
  - The new token does differ whenever the rotation happens in another second
    (`Sessions.RotationInLaterSecondIsFresh`, `Sessions.RotatedTokenIsDead`).
- **Refresh after logout.** The stored token is NULL after logout, and reading
  it into a Go string fails with a scan error. Refresh returns that error, not
  `ErrInvalidRefreshToken` (`Sessions.LogoutInvalidatesRefresh`).
- **Login errors.** An unknown username and a wrong password are different
  errors from `Login`. The `signIn` handler maps both to 500.
- **The middleware never reads the scheme word.** The handlers strip only a
  literal, case-sensitive `"Bearer "`. So `Token abc` passes the middleware
  when `abc` is valid, but the handler then parses the whole header, which
  fails: the request gets 401 (`Handlers.OtherSchemeRefused`).
- **Bcrypt truncation.** The model does not assume that a different password
  fails the check, because bcrypt reads only the first 72 bytes.

## Model

| member | source | states |
|---|---|---|
| Jwt.IssuedAccessToken | auth_service/internal/infrastructure/auth/jwt.go:10-18 | An issued access token decodes to an HS256 token with issuer "auth-service", subject and `user_id` both the given id, `iat` now, `exp` 1800 s later and type "access". It is signed with the access key. |
| Jwt.IssuedRefreshToken | auth_service/internal/infrastructure/auth/jwt.go:42-70 | An issued refresh token decodes the same way, but with type "refresh", a lifetime of 604800 s and the refresh key. |
| Jwt.NewToken | auth_service/internal/infrastructure/auth/jwt.go:50-70 | With a lawful codec, the token string decodes to an HS256 token. Its issuer is "auth-service", its subject and `user_id` are both the given id, `iat` is now and `exp` is now plus the lifetime. It has the given type and is signed with the given key. The string contains no space. |
| Jwt.NewAccessToken | auth_service/internal/infrastructure/auth/jwt.go:42-44 | With a lawful codec, the token decodes with type "access", `exp` 1800 s after `iat`, and the access key. |
| Jwt.NewRefreshToken | auth_service/internal/infrastructure/auth/jwt.go:46-48 | With a lawful codec, the token decodes with type "refresh", `exp` 604800 s after `iat`, and the refresh key. |
| Jwt.RefreshTokensCollide | auth_service/internal/infrastructure/auth/jwt.go:57-69 | Two refresh tokens are equal if and only if they were issued for the same user id in the same second. There is no claim that tells them apart. |
| Jwt.Parse | auth_service/internal/infrastructure/auth/jwt.go:84-119 | Parse succeeds if and only if the string decodes to a token that meets all of these: HMAC algorithm; the expected key; not expired (now < exp, and a token without exp never expires); not before its `nbf` (a token without nbf always passes); the expected type; issuer "auth-service". On success it returns the `user_id` claim. An undecodable string is `TokenMalformed`. |
| Jwt.ParseAccessToken | auth_service/internal/infrastructure/auth/jwt.go:76-78 | Succeeds if and only if the string decodes to a token that is acceptable with type "access" and the access key. The result is its `user_id`. |
| Jwt.ParseRefreshToken | auth_service/internal/infrastructure/auth/jwt.go:80-82 | Succeeds if and only if the string decodes to a token that is acceptable with type "refresh" and the refresh key. The result is its `user_id`. |
| Jwt.NonHmacRefusedFirst | auth_service/internal/infrastructure/auth/jwt.go:93-96 | A token with a non-HMAC algorithm is refused for its method, before its key or claims are examined. |
| Jwt.WrongKeyRefused | auth_service/internal/infrastructure/auth/jwt.go:90-103 | An HMAC token signed with another key is refused for its signature, whatever its claims. |
| Jwt.NotYetValidRefused | auth_service/internal/infrastructure/auth/jwt.go:90-103 | A token that is correctly signed and unexpired but whose `nbf` is still ahead is refused as not yet valid, before its type or issuer is examined. |
| Jwt.WrongTypeRefused | auth_service/internal/infrastructure/auth/jwt.go:110-112 | A token that is correctly signed, unexpired and past its not-before time, but has the wrong `type`, is refused for its type. |
| Jwt.WrongIssuerRefused | auth_service/internal/infrastructure/auth/jwt.go:114-116 | A token that passes every other check but has another issuer is refused for its issuer. |
| Jwt.AccessRoundTrip | auth_service/internal/infrastructure/auth/jwt.go:42-44 | An access token parses back to its user id before `iat + 1800`. From then on it is refused as expired. |
| Jwt.RefreshRoundTrip | auth_service/internal/infrastructure/auth/jwt.go:46-48 | A refresh token parses back to its user id before `iat + 604800`. From then on it is refused as expired. |
| Jwt.AccessTokenNotARefreshToken | auth_service/internal/infrastructure/auth/jwt.go:80-82 | An access token is never accepted as a refresh token. With distinct keys the failure is the signature. With equal keys and the token unexpired, it is the type. |
| Jwt.RefreshTokenNotAnAccessToken | auth_service/internal/infrastructure/auth/jwt.go:76-78 | A refresh token is never accepted as an access token. With distinct keys the failure is the signature. With equal keys and the token unexpired, it is the type. |
| Jwt.SpacedStringMalformed | auth_service/internal/infrastructure/auth/jwt.go:90-103 | A string that holds a space is refused as malformed. |
| Jwt.IssuedTokensHaveNoSpace | auth_service/internal/infrastructure/auth/jwt.go:68-69 | Issued tokens contain no space. |
| Passwords.HashPassword | auth_service/internal/usecase/auth/auth.go:103-106 | Returns the hash exactly when bcrypt produces one, and `HashingFailed` otherwise. For a sound bcrypt, the password checks against the hash. |
| Passwords.CheckPassword | auth_service/internal/usecase/auth/auth.go:108-110 | Succeeds if and only if bcrypt accepts the password against the hash. Otherwise the error is `PasswordMismatch`. |
| Passwords.HashThenCheck | auth_service/internal/usecase/auth/auth.go:103-110 | A password checks against the hash made from it. |
| UserStore.CreateUser | auth_service/internal/infrastructure/postgres/user/auth.go:25-57 | A new id gets a row with the given fields, the password stored as the hash and a NULL refresh token, and the id is returned. An existing id is a duplicate-key error and leaves the store unchanged. Existing rows are never changed. |
| UserStore.GetUserByUsername | auth_service/internal/infrastructure/postgres/user/auth.go:68-76 | Fails with `NoRows` if and only if no row has that username. Otherwise it returns a user with that username, carrying only the id, the username and the password hash. |
| UserStore.SaveRefreshToken | auth_service/internal/infrastructure/postgres/user/auth.go:77-91 | Overwrites the row's refresh token and nothing else. The set of ids and all other rows are unchanged. An unknown id is a no-op. |
| UserStore.GetRefreshToken | auth_service/internal/infrastructure/postgres/user/auth.go:93-109 | Succeeds if and only if the row exists and its token is not NULL. A missing row is `NoRows`; a NULL token is the scan error. |
| UserStore.DeleteRefreshToken | auth_service/internal/infrastructure/postgres/user/auth.go:111-125 | Sets the row's token to NULL and touches nothing else. An unknown id is a no-op. |
| UserStore.GetUserByID | auth_service/internal/infrastructure/postgres/user/auth.go:127-145 | Fails with `NoRows` if and only if the id is absent. Otherwise it returns id, username, email and names, with no password hash and no refresh token. |
| UserStore.SaveThenGet | auth_service/internal/infrastructure/postgres/user/auth.go:77-109 | Reading the token just saved gives it back. |
| UserStore.DeleteThenGet | auth_service/internal/infrastructure/postgres/user/auth.go:93-125 | After a delete, reading the token is the NULL-scan error. |
| UserStore.SaveOverwrites | auth_service/internal/infrastructure/postgres/user/auth.go:77-91 | Of two saves, only the last one counts. |
| UserStore.DeleteIdempotent | auth_service/internal/infrastructure/postgres/user/auth.go:111-125 | Deleting twice is the same as deleting once. |
| UserStore.TokenWritesAreInvisibleElsewhere | auth_service/internal/infrastructure/postgres/user/auth.go:77-145 | Saving or deleting one user's token does not change any other user's token, or any user's profile. |
| AuthService.Issue | auth_service/internal/usecase/auth/auth.go:58-70 | With lawful token and uuid libraries, the issued access token and refresh token, each parsed as its own kind at issue time, name the user's id. The two tokens differ. |
| AuthService.Register | auth_service/internal/usecase/auth/auth.go:36-44 | A hashing failure returns `HashingFailed` before the store is touched. Otherwise CreateUser decides: a fresh id gives `Ok(newId)`, and an id already present gives `DuplicateKey` with the store unchanged. On success exactly one row is added: the input fields, the bcrypt hash in place of the password, and no token. With sound bcrypt the password checks against the stored hash. |
| AuthService.Login | auth_service/internal/usecase/auth/auth.go:46-80 | Fails with `NoRows` if and only if no user has that username. When the lookup finds a row, Login succeeds if and only if bcrypt accepts the password against that row's hash; otherwise it fails with `PasswordMismatch`. Failures change nothing. On success the result is the pair issued now for a user with that username whose hash accepts the password, and the store holds the new refresh token for that user. |
| AuthService.Subject | auth_service/internal/usecase/auth/auth.go:145-154 | Succeeds if and only if the token parse succeeds and its claim is uuid text. A parse error passes through unchanged; a non-uuid claim is `InvalidUuid`. |
| AuthService.ParseAccessToken | auth_service/internal/usecase/auth/auth.go:82-95 | Succeeds if and only if the access token parses and its `user_id` is uuid text. The result is that uuid. |
| AuthService.Logout | auth_service/internal/usecase/auth/auth.go:112-124 | Fails exactly when the access token does not name a uuid, and then changes nothing. Otherwise it clears that user's refresh token. |
| AuthService.Me | auth_service/internal/usecase/auth/auth.go:126-143 | A token error passes through. Otherwise the result is the by-id read of the named user, with no password hash and no refresh token. |
| AuthService.Refresh | auth_service/internal/usecase/auth/auth.go:144-182 | Succeeds if and only if the token names a stored user whose stored token is this very token. The failures are: the parse or uuid error; `NoRows` or the NULL-scan error; `InvalidRefreshToken` when the stored token differs. Failures change nothing. On success the new pair is issued for that user and its refresh token replaces the stored one. |
| Sessions.RefreshStoresNewToken | auth_service/internal/usecase/auth/auth.go:166-181 | After a successful refresh, the user's slot holds the refresh token it returned. |
| Sessions.RefreshSingleUse | auth_service/internal/usecase/auth/auth.go:156-164 | Once a refresh has rotated the slot to a different token, replaying the old token fails and changes nothing. If the old token still parses, the failure is `InvalidRefreshToken`. |
| Sessions.RotationInLaterSecondIsFresh | auth_service/internal/usecase/auth/auth.go:166-176 | A rotation in a different second from the one the presented token was issued in yields a different refresh token. |
| Sessions.RotatedTokenIsDead | auth_service/internal/usecase/auth/auth.go:144-182 | A refresh token issued in one second and rotated in another can never be used again. |
| Sessions.SameSecondRefreshReplays | auth_service/internal/usecase/auth/auth.go:144-182 | A refresh in the same second as the login returns the login's own pair and leaves the store unchanged. So the token stays usable. |
| Sessions.LoginThenRefresh | auth_service/internal/usecase/auth/auth.go:46-80 | A login's refresh token can be exchanged before it expires. The exchange yields the pair issued for the same user at the new time and stores its refresh token. |
| Sessions.LogoutInvalidatesRefresh | auth_service/internal/usecase/auth/auth.go:112-124 | After logout, every refresh token naming the same user fails and changes nothing. For a stored user the error is the NULL-scan error. |
| Sessions.LoginLogoutRefresh | auth_service/internal/usecase/auth/auth.go:46-182 | Login, then logout with the live access token, succeeds. The login's refresh token is refused afterwards, at any time. |
| Sessions.RegisterLoginMe | auth_service/internal/usecase/auth/auth.go:36-143 | A user registered under an unused username can log in with the password given. The access token names the new id, and Me then returns the registered profile without hash or token. |
| GoStrings.CountZero | auth_service/internal/interfaces/http/handler/middleware.go:33-34 | A string has no occurrence of a character if and only if the character is not in it. |
| GoStrings.Split | auth_service/internal/interfaces/http/handler/middleware.go:33 | There is one more piece than there are separators. No piece contains the separator, and joining the pieces restores the string. |
| GoStrings.JoinInjective | auth_service/internal/interfaces/http/handler/middleware.go:33 | Separator-free pieces are determined by their join. |
| GoStrings.SplitJoin | auth_service/internal/interfaces/http/handler/middleware.go:33 | Splitting a join of separator-free pieces gives the pieces back. |
| GoStrings.SplitTwoWords | auth_service/internal/interfaces/http/handler/middleware.go:33-40 | Two space-free words around one space split into exactly those two words. |
| GoStrings.TrimPrefix | auth_service/internal/interfaces/http/handler/auth.go:150 | When the prefix is present, the input is the prefix followed by the result. Otherwise the input is returned unchanged. |
| GoStrings.TrimPrefixOfConcat | auth_service/internal/interfaces/http/handler/auth.go:175 | Trimming a prefix that was just prepended gives the rest back. |
| Middleware.UserIdentity | auth_service/internal/interfaces/http/handler/middleware.go:27-49 | An empty header gets 400 "empty auth header", and a header without exactly one space gets 400 "invalid auth header". The chain continues if and only if the second word is a valid access token naming a uuid, and then "UserId" is set to it. Otherwise the response is 401 with the parse error. |
| Middleware.GetUserId | auth_service/internal/interfaces/http/handler/middleware.go:55-70 | Succeeds if and only if "UserId" holds a uuid, and returns it. Otherwise the error is `ErrUserNotAuthorized`. |
| Middleware.TwoWordHeader | auth_service/internal/interfaces/http/handler/middleware.go:33-48 | For two space-free words, the verdict is the parse of the second word alone, whatever the first word is. |
| Middleware.BareTokenRefused | auth_service/internal/interfaces/http/handler/middleware.go:33-36 | A non-empty header without a space gets 400. |
| Middleware.SpacesCounted | auth_service/internal/interfaces/http/handler/middleware.go:33-34 | Two adjacent spaces count as two separators. |
| Middleware.ExtraSpaceRefused | auth_service/internal/interfaces/http/handler/middleware.go:33-36 | A double space between scheme and token gets 400. |
| Middleware.IdentityThenGetUserId | auth_service/internal/interfaces/http/handler/middleware.go:47-69 | What the middleware stores, `getUserId` reads back as the parsed id. |
| Handlers.BindRegister | auth_service/internal/interfaces/http/handler/auth.go:10-17 | Binding succeeds if and only if the body is present, all five fields are non-empty, the email is valid and the password has at least 6 characters. |
| Handlers.BindLogin | auth_service/internal/interfaces/http/handler/auth.go:19-23 | Binding succeeds if and only if username and password are both present. |
| Handlers.BindRefresh | auth_service/internal/interfaces/http/handler/auth.go:94-96 | Binding succeeds if and only if the refresh token is present. |
| Handlers.RegisteredCredentialsBind | auth_service/internal/interfaces/http/handler/auth.go:10-23 | The username and password of a register body that binds also bind as a login body, and the password has at least 6 characters. |
| Handlers.SignUp | auth_service/internal/interfaces/http/handler/auth.go:35-61 | A binding failure gets 400 and the store is unchanged. A Register error gets 500. Success gets 201 with the new id as text. |
| Handlers.SignIn | auth_service/internal/interfaces/http/handler/auth.go:73-91 | A binding failure gets 400, and every Login error gets 500. Success gets 200 with both tokens. The store is the one Login leaves. |
| Handlers.RefreshTokens | auth_service/internal/interfaces/http/handler/auth.go:117-136 | A binding failure gets 400, and every Refresh error gets 401. Success gets 200 with both new tokens. |
| Handlers.BearerToken | auth_service/internal/interfaces/http/handler/auth.go:149-150 | The header with one leading "Bearer " removed if present. Otherwise the header unchanged. |
| Handlers.LogoutHandler | auth_service/internal/interfaces/http/handler/auth.go:146-161 | Logout runs on the trimmed header. Its error gets 401, and success gets 200 "logged out". |
| Handlers.MeHandler | auth_service/internal/interfaces/http/handler/auth.go:171-190 | Me runs on the trimmed header. Its error gets 401; success gets 200 with id, username, email and names only. The store is unchanged. |
| Handlers.MeView | auth_service/internal/interfaces/http/handler/auth.go:183-189 | The Me response carries the user's username, email and names. Its id text parses back to the user's id. |
| Handlers.MeViewIgnoresSecrets | auth_service/internal/interfaces/http/handler/auth.go:183-189 | The Me response does not depend on the password hash or the refresh token. |
| Handlers.LogoutRoute | auth_service/internal/interfaces/http/handler/middleware.go:27-49 | The middleware runs at the first clock reading; its abort is the response. Otherwise the logout handler runs on the same header at the second clock reading. |
| Handlers.MeRoute | auth_service/internal/interfaces/http/handler/middleware.go:27-49 | The middleware runs at the first clock reading; its abort is the response. Otherwise the me handler runs on the same header at the second clock reading. |
| Handlers.BearerPrefixIffBearerScheme | auth_service/internal/interfaces/http/handler/auth.go:150 | A header made of two space-free words starts with "Bearer " if and only if its first word is "Bearer". |
| Handlers.BearerHeaderToken | auth_service/internal/interfaces/http/handler/auth.go:175 | "Bearer " followed by a token reaches the handler as the bare token. |
| Handlers.OtherSchemeRefused | auth_service/internal/interfaces/http/handler/auth.go:146-190 | A scheme other than "Bearer" is not stripped. `/me` and `/logout` then always answer 401 and leave the store unchanged. |
| Handlers.BearerRequestsSucceed | auth_service/internal/interfaces/http/handler/auth.go:146-190 | "Bearer " followed by an access token of a stored user passes the middleware while the token is live. If the token is still live when the handler parses it again, `/me` returns 200 with the user's public profile and `/logout` returns 200 and clears the user's refresh token. If it expired in between, both return 401 `TokenExpired` and leave the store unchanged. |
| Handlers.SignUpThenSignIn | auth_service/internal/interfaces/http/handler/auth.go:35-91 | Suppose a registration body binds, its username is unused, the id is fresh, and bcrypt produces a hash of the password. Then sign-up gets 201 with the new id, and signing in with the same username and password gets 200 with the pair issued for that id. |
| Handlers.SignInThenRefreshTwice | auth_service/internal/interfaces/http/handler/auth.go:73-136 | A sign-in's refresh token, presented to `/refresh` in another second before it expires, gets 200. Presenting the same token again gets 401 and leaves the store unchanged. |

## Left out

- The JWT encoding (base64url, JSON, HMAC-SHA) is not modelled. It is a codec parameter with a round-trip law, and signature verification is modelled as equality of keys.
- Token signing never fails in the model. With a `[]byte` key and HS256 the library cannot fail, so the signing-error branches of Login and Refresh are not modelled.
- Each use-case call reads the clock once, in whole seconds, which is the resolution of `NumericDate`. These time reads in the source become a single reading: the two `time.Now()` calls in `newToken`, the two token issues in Login and in Refresh, and Refresh's parse and re-issue. A second boundary between them is not modelled.
- The protected routes take two clock readings, one for the middleware's parse and one for the handler's. The other handlers take one reading per request.
- `aud` and `jti` are not modelled: the service neither sets nor checks them. `nbf` is modelled because the library checks it, although the service never sets it.
- The `!ok \|\| !token.Valid` check after a successful library parse can never fire, so it has no branch in the model.
- When several of the library's claim checks fail at once (expired and not yet valid, say), the library joins the errors. The model reports the first, `TokenExpired`.
- Error texts are not modelled. Errors are the values of `Domain.Error`.
- bcrypt's internals, its cost and its 72-byte input truncation are not modelled. bcrypt is a parameter with one law.
- Passwords.CheckPassword: different passwords are not proved to fail against a hash, because bcrypt may accept them (see the truncation above).
- uuid text formats are not modelled: `uuid.Parse` and `String` are a parameter with a round-trip law.
- Database failures other than "no rows" and the NULL scan are not modelled, so the Save/Delete error branches of Login, Refresh and Logout are absent. Connection retries are not modelled either.
- UserStore.CreateUser: unique constraints other than the primary key (a username or email already taken, say) are not modelled. The schema is not part of this model, so CreateUser accepts any row under a fresh id. It does not promise the duplicate-user error a unique username column would raise.
- Whether usernames are unique is not known: the schema is not part of this model.
  - UserStore.GetUserByUsername: for a duplicated username, it returns one of the matching rows without saying which.
  - AuthService.Login: the same applies to Login and `signIn`.
- `created_at`, and the id the database generates, are not modelled: the new id is an input.
- Concurrency is not modelled. In the source, two simultaneous refreshes with the same token can both pass the comparison before either saves. The model cannot show this because each call is atomic.
- The zero values returned alongside an error (empty strings, the nil uuid) are not modelled.
- The `GetUser` repository method, the service's `ParseRefreshToken` and `GenerateAccessToken` are not modelled. Nothing in the core calls them.
- Not modelled: gin itself, routing beyond the two protected routes, CORS, swagger, logging, configuration and server start-up. The email validator is a parameter.
