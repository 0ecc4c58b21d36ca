# Task manager: sessions, tokens and task access in Dafny

This project models the security core of the task-manager service, a Spring Boot REST
application. Users log in and receive a short-lived JWT access token and a long-lived refresh
token. The refresh token is stored in Redis as the user's single session and is handed to the
browser as an HttpOnly cookie. Every request passes through `JwtAuthenticationFilter`, which:

- refuses missing and denylisted tokens;
- silently renews an expired access token from the refresh cookie;
- establishes the caller's identity.

Logout denylists the access token and deletes the session. An explicit refresh rotates the
session. Behind the filter, `TaskService` and `UserService` enforce who may see and change
which task, and `GlobalExceptionHandler` turns every exception into an HTTP status.

How the model is built:

- **Tokens.** The JWT library, together with the signing key, is a `Jwt.Codec`: a signing
  function and a parsing function. A JWT records its issue and expiry instants as
  NumericDate, in whole seconds. So the service's millisecond instants are cut down to the
  second (`Jwt.WholeSeconds`) before they are signed. The one fact assumed about the library
  is `Jwt.Sound`: a token it signed from whole-second claims parses back to the same claims.
  Text with no character other than whitespace is refused before parsing, with
  IllegalArgumentException.
- **Redis.** The shared store is a `Redis.RedisStore` holding a map from key to value and
  expiry instant. Time is logical: every operation takes `now`. An entry is live up to and
  including its expiry instant, because Redis removes a key only once the clock has passed
  that instant.
- **Security context.** The thread-local `SecurityContextHolder` becomes an identity value.
  The filter receives it and returns it.
- **Exceptions.** An exception is a value, `Errors.Exception(kind, message)`. A controller
  either returns a status and a body or raises one (`Errors.Reply`). `Errors.Handle` is the
  exception handler.
- **Tables.** The users and tasks tables are maps from id to row inside `Domain.Database`.
  `Valid()` states the table invariants:
  - primary keys;
  - the foreign key from a task to its owner;
  - unique usernames.

Modules follow the source files: `Jwt` (JwtService), `Redis`, `RefreshTokens`
(RefreshTokenService), `Blacklist` (TokenBlacklistService), `Cookies` (CookieService),
`Filter` (JwtAuthenticationFilter), `AuthController`, `Errors` (GlobalExceptionHandler),
`Domain` (entities, tables, UserDetailsServiceImpl), `TaskService` and `UserService`.
`Scenarios` chains the endpoints into whole sessions.

### Where the code differs from the intended behaviour

The model follows the code in each of these cases.

- **Refresh with an expired or badly signed token.** The JWT parser raises
  ExpiredJwtException or SignatureException. Neither has a handler of its own, so the client
  gets 500 rather than the intended 401 for a refresh token that is no longer good. Only a malformed token gives 401.
- **Refresh for a user who no longer exists.** This raises UsernameNotFoundException, which
  also gives 500.
- **Logout with an expired access token.** The token is denylisted first. Reading its
  subject then raises ExpiredJwtException (500), so the session is not deleted and the
  cookie is not cleared, although logout is meant to end the session in every case.
- **Exceptions inside the filter.** They escape the filter (`Filter.FilterOutcome.Thrown`).
  They are not turned into a 401, because the exception handler only sees exceptions thrown
  by controllers.
- **A blank bearer token or refresh token.** The header `"Bearer "`, or a body whose refresh
  token is empty, reaches the JWT parser as blank text. The parser raises
  IllegalArgumentException, which has no handler of its own: refresh answers 500, logout
  answers 500 after denylisting the empty token, and in the filter the exception escapes.
- **Rotation within one second.** A refresh token carries only its subject and its
  whole-second instants. So a refresh in the same second as the one the session token was
  issued in produces the identical string (`Jwt.SameSecondRefreshTokensCoincide`), and the
  "rotated-out" token keeps working (`Scenarios.SameSecondRotationKeepsOldToken`). Rotation
  invalidates the old token only from the next second on.
- **Expiry is at the second.** A token expires at the end of its lifetime cut down to the
  second, so up to 999 ms earlier than issue time plus lifetime.
- **Paths.** The authentication endpoints live under `/api/auth`, and the refresh cookie is
  scoped to `/api/auth/refresh`. The filter lets every `/api/auth` path through untouched,
  so a browser never sends the refresh cookie to a request that reaches silent renewal
  (`Filter.CookieScopeIsBypassed`). Renewal only serves clients that attach the cookie by
  hand.
- **Partial user update.** `UserService.update` is meant to skip the request's null fields,
  but as written it skips none (see "## Findings"). Bean validation on the controller
  rejects null fields first, so clients do not see the difference.

## Model

| member | source | states |
|---|---|---|
| `Errors.Handle` | src/main/java/com/example/taskmanager/exception/GlobalExceptionHandler.java:22-86 | 401 exactly for bad credentials and malformed JWTs; 403 exactly for access denied; 404 exactly for user/task not found; 400 exactly for validation, unreadable body and invalid data-access usage; everything else 500; the body always ends with the exception's message |
| `Errors.UnhandledKindsAreServerErrors` | src/main/java/com/example/taskmanager/exception/GlobalExceptionHandler.java:82-86 | database errors and exceptions without a dedicated handler (expired or badly signed JWT, unknown username, plain runtime exceptions) are 500 |
| `Domain.LoadUserByUsername` | src/main/java/com/example/taskmanager/service/UserDetailsServiceImpl.java:24-42 | succeeds exactly when a user has the name, with that name and the user's role name as the only authority; otherwise UsernameNotFoundException carrying the name |
| `Domain.FindByUsername` | src/main/java/com/example/taskmanager/repository/UserRepository.java:14 | finds an id exactly when a user has the name, and with unique names it is the only such id |
| `Jwt.WholeSeconds` | src/main/java/com/example/taskmanager/security/JwtService.java:36-37 | the instant a token records for a Date: a multiple of 1000 at most 999 ms from it, toward zero as Java's long division truncates |
| `Jwt.JwtService.GenerateAccessToken` | src/main/java/com/example/taskmanager/security/JwtService.java:35-46 | under a sound codec the token parses to the user's name, the user's authorities as `roles`, and issue and expiry instants now and now plus the access lifetime, each cut down to the whole second |
| `Jwt.JwtService.GenerateRefreshToken` | src/main/java/com/example/taskmanager/security/JwtService.java:48-58 | under a sound codec the token parses to the user's name, no `roles` claim, and issue and expiry instants now and now plus the refresh lifetime, each cut down to the whole second |
| `Jwt.JwtService.ParseSignedClaims` | src/main/java/com/example/taskmanager/security/JwtService.java:60-67 | succeeds exactly for a non-blank, correctly signed, unexpired token; a failure is IllegalArgumentException exactly for blank text, otherwise malformed, bad signature or expired, and expired exactly when the signature was good |
| `Jwt.JwtService.ExtractUsername` | src/main/java/com/example/taskmanager/security/JwtService.java:60-67 | the subject, exactly when the token is non-blank, correctly signed and unexpired; otherwise the parser's exception |
| `Jwt.JwtService.IsTokenValid` | src/main/java/com/example/taskmanager/security/JwtService.java:69-72 | true iff live and the subject equals the name; false iff live with another subject; raises (never false) for an expired, forged, malformed or blank token |
| `Jwt.JwtService.IsTokenExpired` | src/main/java/com/example/taskmanager/security/JwtService.java:74-87 | true iff correctly signed with expiry before now (the parser's expiry exception is caught); false iff live; raises only for blank, malformed or badly signed tokens |
| `Jwt.AccessTokenRoundTrip` | src/main/java/com/example/taskmanager/security/JwtService.java:35-46 | up to its expiry cut down to the second, a fresh access token yields the user's name, the user's roles, its whole-second issue and expiry instants, is not expired, and is valid for the user |
| `Jwt.RefreshTokenRoundTrip` | src/main/java/com/example/taskmanager/security/JwtService.java:48-58 | up to its expiry cut down to the second, a fresh refresh token yields the user's name, no roles, its whole-second issue and expiry instants, and is valid for the user |
| `Jwt.TokenExpires` | src/main/java/com/example/taskmanager/security/JwtService.java:74-87 | past its expiry cut down to the second (which can be before now plus the lifetime), an access token is reported expired and reading its subject raises ExpiredJwtException |
| `Jwt.TokenInvalidForOtherUser` | src/main/java/com/example/taskmanager/security/JwtService.java:69-72 | with a lifetime of at least a second, a fresh access token is not valid for any other name |
| `Jwt.CompactInjective` | src/main/java/com/example/taskmanager/security/JwtService.java:39-45 | with a sound codec, different whole-second claims never sign to the same token |
| `Jwt.ReissuedRefreshTokenDiffers` | src/main/java/com/example/taskmanager/security/JwtService.java:48-58 | a refresh token issued in another second than a given token's recorded issue instant is a different token |
| `Jwt.SameSecondRefreshTokensCoincide` | src/main/java/com/example/taskmanager/security/JwtService.java:48-58 | with a refresh lifetime of whole seconds, two refresh tokens for one user issued within the same second are the same string |
| `RefreshTokens.RefreshKeyInjective` | src/main/java/com/example/taskmanager/service/RefreshTokenService.java:17-23 | distinct users have distinct session keys |
| `RefreshTokens.StoreRefreshToken` | src/main/java/com/example/taskmanager/service/RefreshTokenService.java:19-26 | overwrites the user's session with the token and expiry now plus the TTL; nothing else changes |
| `RefreshTokens.GetRefreshToken` | src/main/java/com/example/taskmanager/service/RefreshTokenService.java:28-38 | the session lookup `Lookup` that the lemmas below are stated over: the value exactly when the user's key holds a live entry, otherwise null |
| `RefreshTokens.DeleteRefreshToken` | src/main/java/com/example/taskmanager/service/RefreshTokenService.java:40-44 | removes exactly the user's key |
| `RefreshTokens.StoredSessionReadsBack` | src/main/java/com/example/taskmanager/service/RefreshTokenService.java:19-38 | a stored session reads back, overwriting any earlier one, up to and including the instant its TTL elapses, and is absent after it |
| `RefreshTokens.DeletedSessionIsAbsent` | src/main/java/com/example/taskmanager/service/RefreshTokenService.java:40-44 | after a delete the user has no session |
| `RefreshTokens.DeleteIsIdempotent` | src/main/java/com/example/taskmanager/service/RefreshTokenService.java:40-44 | deleting an absent session leaves the store unchanged |
| `RefreshTokens.SessionWritesAreIsolated` | src/main/java/com/example/taskmanager/service/RefreshTokenService.java:17-44 | writing or deleting one user's session never changes another user's |
| `Blacklist.BlacklistKeyInjective` | src/main/java/com/example/taskmanager/service/TokenBlacklistService.java:18-22 | distinct tokens have distinct denylist keys |
| `Blacklist.KeySpacesDisjoint` | src/main/java/com/example/taskmanager/service/TokenBlacklistService.java:18 | no denylist key is a session key |
| `Blacklist.BlacklistToken` | src/main/java/com/example/taskmanager/service/TokenBlacklistService.java:20-27 | writes the literal "true" under "blacklist:" + token with expiry now plus the TTL; nothing else changes |
| `Blacklist.IsTokenBlacklisted` | src/main/java/com/example/taskmanager/service/TokenBlacklistService.java:29-33 | the answer is the denylist predicate `Revoked` that the lemmas below are stated over: the token's key holds a live entry, whatever the value |
| `Blacklist.BlacklistedUntilTtl` | src/main/java/com/example/taskmanager/service/TokenBlacklistService.java:20-33 | a token just blacklisted is reported blacklisted exactly up to and including the instant its TTL elapses |
| `Blacklist.NeverBlacklistedIsNotRevoked` | src/main/java/com/example/taskmanager/service/TokenBlacklistService.java:29-33 | a token never written is not blacklisted |
| `Blacklist.BlacklistingIsIsolated` | src/main/java/com/example/taskmanager/service/TokenBlacklistService.java:18-33 | blacklisting one token changes neither any other token's status nor any session |
| `Blacklist.SessionWritesKeepDenylist` | src/main/java/com/example/taskmanager/service/TokenBlacklistService.java:18-33 | session writes and deletes never change whether a token is blacklisted |
| `Cookies.AddRefreshTokenCookie` | src/main/java/com/example/taskmanager/service/CookieService.java:10-18 | appends exactly one cookie named refreshToken carrying the token, HttpOnly, Secure, path /api/auth/refresh, max age 604800; earlier cookies unchanged |
| `Cookies.RemoveRefreshTokenCookie` | src/main/java/com/example/taskmanager/service/CookieService.java:20-25 | appends exactly one refreshToken cookie with null value, max age 0 and the same path; earlier cookies unchanged |
| `Filter.ExtractToken` | src/main/java/com/example/taskmanager/security/JwtAuthenticationFilter.java:100-106 | a token exactly when the header exists and starts with "Bearer ", and then the header is "Bearer " followed by the token |
| `Filter.ExtractTokenInverse` | src/main/java/com/example/taskmanager/security/JwtAuthenticationFilter.java:100-106 | a header built as "Bearer " + token yields that token back |
| `Filter.FirstNamed` | src/main/java/com/example/taskmanager/security/JwtAuthenticationFilter.java:108-117 | the index of a cookie with the name and no earlier one with it, or none when no cookie has the name |
| `Filter.CookieScopeIsBypassed` | src/main/java/com/example/taskmanager/security/JwtAuthenticationFilter.java:38-41 | every request within the refresh cookie's path /api/auth/refresh is let through by the filter, so that cookie never reaches renewal |
| `Filter.ExtractRefreshTokenFromCookie` | src/main/java/com/example/taskmanager/security/JwtAuthenticationFilter.java:108-117 | the value of the first refreshToken cookie, or null when there is none |
| `Filter.DoFilterInternal` | src/main/java/com/example/taskmanager/security/JwtAuthenticationFilter.java:35-81 | auth paths pass unchanged; the only refusals are a missing bearer token ("Invalid token") and a denylisted one ("Token is blacklisted"), both 401 and before any parsing; a forged or malformed token raises; an expired token is renewed exactly when the refresh cookie is live and equals its subject's session, and otherwise the request continues as it was; a live token establishes its subject only when no identity is present; a new access token is issued only by renewal, for the identity it establishes |
| `AuthController.SessionTtlIsCookieMaxAge` | src/main/java/com/example/taskmanager/controller/AuthController.java:51 | the session TTL in milliseconds is the cookie's max age in seconds times 1000 |
| `AuthController.Authenticate` | src/main/java/com/example/taskmanager/controller/AuthController.java:44-48 | succeeds exactly when a user has the name and the encoder accepts the password, with that user's details; otherwise BadCredentialsException "Bad credentials" for unknown name and wrong password alike |
| `AuthController.Login` | src/main/java/com/example/taskmanager/controller/AuthController.java:39-56 | on success 200 with the access token and a null refresh token, the session set to the new refresh token for 604800000 ms, and one refresh cookie with that token appended; on failure the exception and no write at all |
| `AuthController.Logout` | src/main/java/com/example/taskmanager/controller/AuthController.java:61-78 | without a bearer header 200 and nothing changes; with one, the token is denylisted for 900000 ms, and then either its subject's session is deleted and the cookie cleared (200) or, when the token no longer parses, the exception is raised with only the denylist entry written |
| `AuthController.Refresh` | src/main/java/com/example/taskmanager/controller/AuthController.java:83-110 | an unparsable or expired token raises; a token other than the stored live session gives 401 with nothing written; the stored session is rotated to a new refresh token for 604800000 ms and both new tokens are returned; no other key's value changes |
| `TaskService.AdminByName` | src/main/java/com/example/taskmanager/service/TaskService.java:167-173 | with unique names, isAdmin of a user's name is exactly that user having ROLE_ADMIN |
| `TaskService.OwnerByIdIsOwnerByName` | src/main/java/com/example/taskmanager/service/TaskService.java:116 | ownership by owner id (as updateOwnTaskStatus checks it) and by owner name (as findTaskByUsername checks it) agree |
| `TaskService.FindTaskByUsername` | src/main/java/com/example/taskmanager/service/TaskService.java:155-165 | the task exactly when it exists and the caller owns it or is an admin; TaskNotFoundException naming the id when missing, AccessDeniedException otherwise |
| `TaskService.FindByStatus` | src/main/java/com/example/taskmanager/service/TaskService.java:43-58 | UserNotFoundException exactly for an unknown caller; otherwise exactly the tasks in the status that the caller owns or, for an admin, all of them, unchanged |
| `TaskService.FindTasksForCurrentUser` | src/main/java/com/example/taskmanager/service/TaskService.java:60-78 | UserNotFoundException "User not found" exactly for an unknown caller; otherwise exactly the caller's tasks, or all tasks for an admin |
| `TaskService.ListingsAreOwnTasks` | src/main/java/com/example/taskmanager/service/TaskService.java:51-75 | a non-admin's listings contain only tasks whose owner has the caller's name |
| `TaskService.Create` | src/main/java/com/example/taskmanager/service/TaskService.java:88-104 | an unknown owner id raises UserNotFoundException with nothing changed; otherwise a task with the next id, the request's fields and that owner is added; tables stay valid |
| `TaskService.UpdateOwnTaskStatus` | src/main/java/com/example/taskmanager/service/TaskService.java:106-123 | task missing, then caller unknown, then caller neither owner nor admin raise in that order with nothing changed; otherwise only the status of that task changes |
| `TaskService.UpdateTaskByAdmin` | src/main/java/com/example/taskmanager/service/TaskService.java:125-144 | fails exactly as findTaskByUsername does, changing nothing; otherwise title, description and status take the request's non-null values and every other field keeps its value |
| `TaskService.Delete` | src/main/java/com/example/taskmanager/service/TaskService.java:146-153 | removes exactly the task when findTaskByUsername allows it; otherwise raises its exception and removes nothing |
| `UserService.FindById` | src/main/java/com/example/taskmanager/service/UserService.java:43-47 | the user exactly when the id exists; otherwise UserNotFoundException "User with id N not found" |
| `UserService.NullPropertyNames` | src/main/java/com/example/taskmanager/service/UserService.java:77-92 | the intended ignore list: exactly the names of the request's null properties |
| `UserService.NullPropertyNamesAsWritten` | src/main/java/com/example/taskmanager/service/UserService.java:77-92 | the ignore list as written: always empty, because the DTO has no setters for the property descriptor to find; so it equals the intended list exactly when no field is null |
| `UserService.NullSkippingCopyIsPartialUpdate` | src/main/java/com/example/taskmanager/service/UserService.java:70 | copying while ignoring the null properties takes each set field verbatim (the password unencoded), keeps each null one, and never changes id or role |
| `UserService.Create` | src/main/java/com/example/taskmanager/service/UserService.java:49-63 | an existing name raises "Username X already exists" with nothing changed; otherwise a user with the next id, the name, the encoded password and ROLE_USER is added; tables stay valid |
| `UserService.Update` | src/main/java/com/example/taskmanager/service/UserService.java:65-75 | the intended update: an unknown id raises UserNotFoundException; a name another user has raises a data-access error with nothing changed; otherwise the user becomes the null-skipping copy and nothing else changes |
| `UserService.UpdateAsWritten` | src/main/java/com/example/taskmanager/service/UserService.java:65-75 | the update as written: UserNotFoundException for an unknown id; success only for an existing user and a request with both fields set |
| `UserService.NullFieldBreaksUpdateAsWritten` | src/main/java/com/example/taskmanager/service/UserService.java:70-92 | for an existing user and a request with a null field, the code as written fails with a NOT NULL data-access error, where the intended update keeps that field's value |
| `UserService.CompleteRequestUpdatesAsIntended` | src/main/java/com/example/taskmanager/service/UserService.java:65-92 | with both fields set, the code as written gives exactly the intended outcome: the duplicate-name error or the updated user |
| `UserService.Delete` | src/main/java/com/example/taskmanager/service/UserService.java:94-101 | an unknown id raises UserNotFoundException with both tables unchanged; otherwise the user and exactly that user's tasks are removed; afterwards no task references the id |
| `Scenarios.LoginWithBadCredentials` | src/main/java/com/example/taskmanager/controller/AuthController.java:44-47 | a wrong password or unknown name at login is a 401 and writes neither Redis nor a cookie |
| `Scenarios.LoginIssuesSession` | src/main/java/com/example/taskmanager/controller/AuthController.java:49-55 | when neither token is born expired, a successful login returns an access token naming the user with the user's role and the whole-second expiry, makes the refresh token (whole-second instants) the live session, and sets a cookie the filter reads back as that token |
| `Scenarios.LogoutThenReplay` | src/main/java/com/example/taskmanager/controller/AuthController.java:64-69 | after logout the same access token is refused by the filter with "Token is blacklisted" for fifteen minutes, including the final instant, whether or not it still parses |
| `Scenarios.LogoutEndsSession` | src/main/java/com/example/taskmanager/controller/AuthController.java:71-73 | login, logout while the access token is unexpired at the second, then refresh with the login's refresh token gives 401 although that token is still signed and unexpired |
| `Scenarios.RotationInvalidatesOldRefreshToken` | src/main/java/com/example/taskmanager/controller/AuthController.java:100-108 | after a successful refresh in a later second than the old token's issue, the old refresh token is refused (401) and the returned one is accepted |
| `Scenarios.SameSecondRotationKeepsOldToken` | src/main/java/com/example/taskmanager/controller/AuthController.java:100-108 | a refresh within the second the session token was issued in returns that same token as the rotated one, and replaying it is accepted again (200) |
| `Scenarios.SilentRenewal` | src/main/java/com/example/taskmanager/security/JwtAuthenticationFilter.java:52-64 | an access token past its whole-second expiry with a refresh cookie equal to the live session continues as that user with a new access token naming the user |
| `Scenarios.DenylistOutlivedByToken` | src/main/java/com/example/taskmanager/controller/AuthController.java:69 | the denylist entry lasts fifteen minutes whatever the access lifetime, so a logged-out token still unexpired at the second after that entry is gone is accepted again and establishes its user |

## Findings

| source | as written | input that shows it | evidently intended | confidence | as-written member | corrected member |
|---|---|---|---|---|---|---|
| src/main/java/com/example/taskmanager/service/UserService.java:77-92 | `new PropertyDescriptor(name, class)` needs a setter, and the immutable UserRequestDto has none. Every lookup throws, the catch returns false, and no null property is reported, so `copyProperties` writes the nulls onto the user. | `update(id, {username: "bob", password: null})` for an existing id: the password becomes null, and the flush fails the NOT NULL column with a data-access error (500). | Null fields are skipped, and the user keeps the old password. | not executed; high: the setter requirement is that constructor's documented behaviour | `UserService.NullFieldBreaksUpdateAsWritten` | `UserService.NullSkippingCopyIsPartialUpdate` |

## Left out

- Signing and key derivation (`JwtService.init`, HMAC, Base64): the JWT library with its key is the abstract `Jwt.Codec`. The only property assumed is that a token signed from whole-second claims parses back to those claims.
- `Jwt.JwtException`: the library's exceptions carry an empty message in the model, so for them `Errors.Handle` says nothing about the response body beyond its fixed prefix. In the source the 401 for a malformed token carries the library's own message.
- `Jwt.IsWhitespace`: lists the characters Java's Character.isWhitespace accepts under current Unicode. A later Unicode version that adds space characters would need the list extended.
- Scenarios whose outcome needs a token that is live when it is issued require it: the lifetime, cut down to the second, must not end before the issue instant. Shorter lifetimes are covered only by `Jwt.TokenExpires`.
- Wall-clock time: each operation takes one logical `now`. Where the source reads the clock twice in one call (the parser, then `new Date()`), the model uses the same instant. The parser allows no clock skew.
- Concurrency: two concurrent refreshes of one session race, and the last write wins. Every operation here runs alone.
- Redis failures and connection handling: the store always answers.
- `Jwt.JwtService.ExtractUsername`: a token without a subject claim, which the filter's null check guards against, is not modelled. Every verified token carries a subject.
- `AuthController.Logout`: the header is a plain string, because Spring rejects a request without the Authorization header before the method runs.
- `AuthController.Refresh`: the request body's token is a plain string. A null token, which the JWT parser rejects with an IllegalArgumentException, is not modelled.
- `AuthController.Authenticate`: stands for Spring's authentication manager and password encoder. The encoder's `matches` is a parameter, and account checks (locked, disabled, expired credentials) are not modelled because accounts are built with their defaults.
- `UserService.Create`: the encoder's `encode` is a parameter. The "User cannot be created" branch cannot be reached, because every step of the Optional chain is non-null.
- `TaskService.Create`, `UserService.Create`: the model requires every request field to be present, as bean validation on the controllers guarantees. The DataAccessException that `create` wraps into "Failed to create task" comes from database failures, which are not modelled.
- `UserService.Update`, `UserService.UpdateAsWritten`: the unique-constraint and NOT NULL violations carry the database driver's message. The model uses a fixed text for each.
- UserNotFoundException and TaskNotFoundException are not part of this model. Their message is taken to be the constructor argument.
- Task creation and update timestamps: the Task entity is not part of this model, so a task has only id, title, description, status and owner.
- `findByIdAndUsername` only wraps `FindTaskByUsername`'s task in a response object, and its `orElseThrow` cannot fire. DTO mapping (TaskMapper, UserMapper) is left out everywhere: results are the entities themselves.
- Paging and sorting: the listings return every matching task as a map keyed by id.
- `UserService.findAll`, the controllers' `@PreAuthorize` role gates, `@Min` path checks and request-body validation messages.
- Servlet plumbing: `FilterChain`, `sendError`, request details, the unused `sendAccessToken` writer, and logging.
