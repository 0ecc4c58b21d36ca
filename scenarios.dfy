/**
 * Whole sessions: sequences of endpoint calls and filtered requests, with what the client
 * observes at the end. Each scenario fixes only what it needs (a sound codec, the instants
 * of the calls, the user directory) and leaves the rest of the Redis store arbitrary.
 */
module Scenarios {
  import opened Wrappers
  import opened Errors
  import opened Domain
  import opened Jwt
  import opened Redis
  import opened RefreshTokens
  import opened Blacklist
  import opened Cookies
  import opened Filter
  import opened AuthController

  /** A wrong password (or an unknown name) at login is a 401 and leaves no trace. */
  method LoginWithBadCredentials(jwt: JwtService, redis: RedisStore, response: ServletResponse, users: Users,
                                 matches: (string, string) -> bool, request: AuthenticationRequest, now: int)
    returns (reply: Reply<AuthenticationResponse>)
    requires UniqueUsernames(users)
    requires !PasswordMatches(users, matches, request.username, request.password)
    modifies redis, response
    ensures StatusOf(reply) == UNAUTHORIZED
    ensures redis.data == old(redis.data) && response.cookies == old(response.cookies)
  {
    reply := Login(jwt, redis, response, users, matches, request, now);
  }

  /**
   * A successful login answers 200 with an access token that names the user and carries the
   * user's role, stores the refresh token as the user's session and sets it as a cookie the
   * filter reads back.
   */
  method LoginIssuesSession(jwt: JwtService, redis: RedisStore, response: ServletResponse, users: Users,
                            matches: (string, string) -> bool, request: AuthenticationRequest, now: int)
    returns (reply: Reply<AuthenticationResponse>, refreshToken: string)
    requires Sound(jwt.codec) && UniqueUsernames(users)
    requires PasswordMatches(users, matches, request.username, request.password)
    // neither token is already expired when it is issued
    requires now <= WholeSeconds(now + jwt.accessTokenExpirationTime)
    requires now <= WholeSeconds(now + jwt.refreshTokenExpirationTime)
    modifies redis, response
    ensures reply.Returned? && reply.status == OK && reply.body.refreshToken == None
    ensures jwt.ExtractUsername(reply.body.accessToken, now) == Success(request.username)
    ensures forall id | id in users && users[id].username == request.username ::
      jwt.ParseSignedClaims(reply.body.accessToken, now).value.roles == Some([RoleName(users[id].role)])
    ensures jwt.codec.parse(reply.body.accessToken).Verified?
    ensures jwt.codec.parse(reply.body.accessToken).claims.subject == request.username
    ensures jwt.codec.parse(reply.body.accessToken).claims.expiration == WholeSeconds(now + jwt.accessTokenExpirationTime)
    ensures jwt.codec.parse(refreshToken)
         == Verified(Claims(request.username, None, WholeSeconds(now), WholeSeconds(now + jwt.refreshTokenExpirationTime)))
    ensures Lookup(redis.data, RefreshKey(request.username), now) == Some(refreshToken)
    ensures SessionMatches(jwt, redis.data, refreshToken, now)
    ensures |response.cookies| > 0 && RefreshCookieValue([response.cookies[|response.cookies| - 1]]) == Some(refreshToken)
  {
    reply := Login(jwt, redis, response, users, matches, request, now);
    var user := Authenticate(users, matches, request.username, request.password).value;
    refreshToken := jwt.GenerateRefreshToken(user, now);
    assert response.cookies[|response.cookies| - 1] == RefreshTokenCookie(refreshToken);
  }

  /**
   * After logout the same access token is refused by the filter for as long as the denylist
   * entry lives, whatever else the request carries, and even if the token could not be read.
   */
  method LogoutThenReplay(jwt: JwtService, redis: RedisStore, response: ServletResponse, users: Users,
                          accessToken: string, request: Request, now: int, later: int)
    returns (out: FilterOutcome)
    requires UniqueUsernames(users)
    requires request.authorization == Some(BEARER + accessToken) && !Bypassed(request)
    requires now <= later <= now + LOGOUT_DENYLIST_TTL_MILLIS
    modifies redis, response
    ensures out == Rejected(UNAUTHORIZED, "Token is blacklisted")
  {
    var _ := Logout(jwt, redis, response, BEARER + accessToken, now);
    ExtractTokenInverse(accessToken);
    var subject := jwt.ExtractUsername(accessToken, now);
    if subject.Success? {
      // deleting the subject's session does not touch the denylist entry
      KeySpacesDisjoint(subject.value, accessToken);
    }
    assert Revoked(redis.data, accessToken, later);
    out := DoFilterInternal(jwt, redis, users, request, None, later);
  }

  /**
   * Login, then logout, then an explicit refresh with the refresh token from the login
   * cookie: 401, although the refresh token is still correctly signed and unexpired.
   */
  method LogoutEndsSession(jwt: JwtService, redis: RedisStore, response: ServletResponse, users: Users,
                           matches: (string, string) -> bool, request: AuthenticationRequest,
                           loginAt: int, logoutAt: int, refreshAt: int)
    returns (reply: Reply<Option<AuthenticationResponse>>)
    requires Sound(jwt.codec) && UniqueUsernames(users)
    requires PasswordMatches(users, matches, request.username, request.password)
    requires loginAt <= logoutAt <= WholeSeconds(loginAt + jwt.accessTokenExpirationTime)
    requires logoutAt <= refreshAt <= WholeSeconds(loginAt + jwt.refreshTokenExpirationTime)
    modifies redis, response
    ensures reply == Returned(UNAUTHORIZED, None)
  {
    var login, refreshToken := LoginIssuesSession(jwt, redis, response, users, matches, request, loginAt);
    var _ := Logout(jwt, redis, response, BEARER + login.body.accessToken, logoutAt);
    ExtractTokenInverse(login.body.accessToken);
    assert Lookup(redis.data, RefreshKey(request.username), refreshAt) == None;
    reply := Refresh(jwt, redis, users, refreshToken, refreshAt);
  }

  /**
   * Rotation: a refresh with the current session succeeds; replaying the same refresh token
   * is then refused, while the token the first call returned is accepted. This needs the
   * rotation to fall in another second than the one the old token was issued in.
   */
  method RotationInvalidatesOldRefreshToken(jwt: JwtService, redis: RedisStore, users: Users,
                                            refreshToken: string, now: int, later: int)
    returns (first: Reply<Option<AuthenticationResponse>>, replay: Reply<Option<AuthenticationResponse>>,
             next: Reply<Option<AuthenticationResponse>>)
    requires Sound(jwt.codec) && UniqueUsernames(users)
    requires SessionMatches(jwt, redis.data, refreshToken, now)
    requires HasUsername(users, jwt.codec.parse(refreshToken).claims.subject)
    requires jwt.codec.parse(refreshToken).claims.issuedAt != WholeSeconds(now)
    requires now <= later <= jwt.codec.parse(refreshToken).claims.expiration
    requires later <= WholeSeconds(now + jwt.refreshTokenExpirationTime) && later <= now + SESSION_TTL_MILLIS
    modifies redis
    ensures first.Returned? && first.status == OK && first.body.Some?
    ensures first.body.value.refreshToken.Some? && first.body.value.refreshToken.value != refreshToken
    ensures replay == Returned(UNAUTHORIZED, None)
    ensures next.Returned? && next.status == OK
  {
    var username := jwt.codec.parse(refreshToken).claims.subject;
    first := Refresh(jwt, redis, users, refreshToken, now);
    var user := LoadUserByUsername(users, username).value;
    var rotated := jwt.GenerateRefreshToken(user, now);
    ReissuedRefreshTokenDiffers(jwt, user, refreshToken, now);
    assert Lookup(redis.data, RefreshKey(username), later) == Some(rotated);
    replay := Refresh(jwt, redis, users, refreshToken, later);
    next := Refresh(jwt, redis, users, rotated, later);
  }

  /**
   * Rotation within the second the session was issued in: the rotated refresh token is the
   * very string it replaces, so the session is unchanged in value and replaying the old
   * token is accepted again.
   */
  method SameSecondRotationKeepsOldToken(jwt: JwtService, redis: RedisStore, users: Users, user: UserDetails,
                                         issuedAt: int, now: int)
    returns (first: Reply<Option<AuthenticationResponse>>, replay: Reply<Option<AuthenticationResponse>>)
    requires Sound(jwt.codec) && UniqueUsernames(users)
    requires LoadUserByUsername(users, user.username) == Success(user)
    requires 0 <= issuedAt <= now && issuedAt / 1000 == now / 1000
    requires jwt.refreshTokenExpirationTime >= 0 && jwt.refreshTokenExpirationTime % 1000 == 0
    requires SessionMatches(jwt, redis.data, jwt.GenerateRefreshToken(user, issuedAt), now)
    modifies redis
    ensures first.Returned? && first.status == OK && first.body.Some?
    ensures first.body.value.refreshToken == Some(jwt.GenerateRefreshToken(user, issuedAt))
    ensures replay.Returned? && replay.status == OK
  {
    var refreshToken := jwt.GenerateRefreshToken(user, issuedAt);
    SameSecondRefreshTokensCoincide(jwt, user, issuedAt, now);
    first := Refresh(jwt, redis, users, refreshToken, now);
    assert Lookup(redis.data, RefreshKey(user.username), now) == Some(refreshToken);
    replay := Refresh(jwt, redis, users, refreshToken, now);
  }

  /**
   * Silent renewal: a request whose access token has expired but whose refresh cookie is the
   * live session continues as the session's user and carries a new access token for it.
   */
  method SilentRenewal(jwt: JwtService, redis: RedisStore, users: Users, user: UserDetails,
                       request: Request, issuedAt: int, now: int)
    returns (out: FilterOutcome)
    requires Sound(jwt.codec) && UniqueUsernames(users) && HasUsername(users, user.username)
    requires now <= WholeSeconds(now + jwt.accessTokenExpirationTime)
    requires !Bypassed(request)
    requires request.authorization == Some(BEARER + jwt.GenerateAccessToken(user, issuedAt))
    requires !Revoked(redis.data, jwt.GenerateAccessToken(user, issuedAt), now)
    requires WholeSeconds(issuedAt + jwt.accessTokenExpirationTime) < now
    requires RefreshCookieValue(request.cookies).Some?
    requires SessionMatches(jwt, redis.data, RefreshCookieValue(request.cookies).value, now)
    requires jwt.codec.parse(RefreshCookieValue(request.cookies).value).claims.subject == user.username
    ensures out.Continued? && out.identity == Some(LoadUserByUsername(users, user.username).value)
    ensures out.newAccessToken.Some?
    ensures jwt.ExtractUsername(out.newAccessToken.value, now) == Success(user.username)
  {
    ExtractTokenInverse(jwt.GenerateAccessToken(user, issuedAt));
    out := DoFilterInternal(jwt, redis, users, request, None, now);
    AccessTokenRoundTrip(jwt, out.identity.value, now, now);
  }

  /**
   * The denylist entry written at logout lasts fifteen minutes whatever the access token's
   * lifetime. When access tokens live longer than that, a logged-out token that has not yet
   * expired is accepted again once the entry is gone, and establishes its user's identity.
   */
  method DenylistOutlivedByToken(jwt: JwtService, redis: RedisStore, response: ServletResponse, users: Users,
                                 user: UserDetails, request: Request, issuedAt: int, logoutAt: int, later: int)
    returns (out: FilterOutcome)
    requires Sound(jwt.codec) && UniqueUsernames(users) && HasUsername(users, user.username)
    requires !Bypassed(request)
    requires request.authorization == Some(BEARER + jwt.GenerateAccessToken(user, issuedAt))
    requires issuedAt <= logoutAt && logoutAt + LOGOUT_DENYLIST_TTL_MILLIS < later
    requires later <= WholeSeconds(issuedAt + jwt.accessTokenExpirationTime)
    modifies redis, response
    ensures out.Continued? && out.identity.Some? && out.identity.value.username == user.username
  {
    var accessToken := jwt.GenerateAccessToken(user, issuedAt);
    var _ := Logout(jwt, redis, response, BEARER + accessToken, logoutAt);
    ExtractTokenInverse(accessToken);
    assert !Revoked(redis.data, accessToken, later);
    out := DoFilterInternal(jwt, redis, users, request, None, later);
  }
}
