/**
 * AuthController: the three session endpoints under /api/auth. Each one runs an ordered
 * sequence of writes to the shared Redis store and to the response's cookies.
 */
module AuthController {
  import opened Wrappers
  import opened Errors
  import opened Domain
  import opened Jwt
  import opened Redis
  import opened RefreshTokens
  import opened Blacklist
  import opened Cookies
  import opened Filter

  datatype AuthenticationRequest = AuthenticationRequest(username: string, password: string)

  /** The JSON body of login and refresh; login leaves `refreshToken` null. */
  datatype AuthenticationResponse = AuthenticationResponse(accessToken: string, refreshToken: Option<string>)

  /** Time-to-live of a session, in milliseconds: seven days. */
  const SESSION_TTL_MILLIS := 604800000
  /** How long logout denylists an access token, in milliseconds: fifteen minutes. */
  const LOGOUT_DENYLIST_TTL_MILLIS := 15 * 60 * 1000
  const LOGOUT_MESSAGE := "Logout successful"

  /** The session lives exactly as long as the browser keeps the refresh cookie. */
  lemma SessionTtlIsCookieMaxAge()
    ensures SESSION_TTL_MILLIS == REFRESH_COOKIE_MAX_AGE * 1000
  {
  }

  /** Some user has this name and the encoder accepts the raw password against the stored hash. */
  predicate PasswordMatches(users: Users, matches: (string, string) -> bool, username: string, password: string)
  {
    exists id | id in users :: users[id].username == username && matches(password, users[id].password)
  }

  /**
   * The authentication manager: the user directory plus the password encoder's `matches`.
   * An unknown name and a wrong password fail alike, with BadCredentialsException.
   */
  function Authenticate(users: Users, matches: (string, string) -> bool, username: string, password: string)
    : (r: Result<UserDetails, Exception>)
    requires UniqueUsernames(users)
    ensures r.Success? <==> PasswordMatches(users, matches, username, password)
    ensures r.Success? ==> r == LoadUserByUsername(users, username) && r.value.username == username
    ensures r.Failure? ==> r.error == Exception(BadCredentials, "Bad credentials")
  {
    if PasswordMatches(users, matches, username, password) then LoadUserByUsername(users, username)
    else Failure(Exception(BadCredentials, "Bad credentials"))
  }

  /**
   * login: authenticates, issues an access and a refresh token, makes the refresh token the
   * user's only session and hands it to the browser as a cookie. A failed authentication
   * writes nothing.
   */
  method Login(jwt: JwtService, redis: RedisStore, response: ServletResponse, users: Users,
               matches: (string, string) -> bool, request: AuthenticationRequest, now: int)
    returns (reply: Reply<AuthenticationResponse>)
    requires UniqueUsernames(users)
    modifies redis, response
    ensures match Authenticate(users, matches, request.username, request.password)
      case Failure(e) =>
        && reply == Raised(e)
        && redis.data == old(redis.data) && response.cookies == old(response.cookies)
      case Success(user) =>
        var refreshToken := jwt.GenerateRefreshToken(user, now);
        && reply == Returned(OK, AuthenticationResponse(jwt.GenerateAccessToken(user, now), None))
        && redis.data == old(redis.data)[RefreshKey(user.username) := Entry(refreshToken, now + SESSION_TTL_MILLIS)]
        && response.cookies == old(response.cookies) + [RefreshTokenCookie(refreshToken)]
  {
    var authentication := Authenticate(users, matches, request.username, request.password);
    if authentication.Failure? {
      return Raised(authentication.error);
    }
    var userDetails := authentication.value;
    var accessToken := jwt.GenerateAccessToken(userDetails, now);
    var refreshToken := jwt.GenerateRefreshToken(userDetails, now);
    StoreRefreshToken(redis, userDetails.username, refreshToken, SESSION_TTL_MILLIS, now);
    AddRefreshTokenCookie(response, refreshToken);
    return Returned(OK, AuthenticationResponse(accessToken, None));
  }

  /**
   * logout: with a bearer header, denylists the access token for fifteen minutes, then
   * deletes its subject's session and clears the cookie. Reading the subject happens after
   * the denylist write, so a token that no longer parses leaves the denylist entry in place
   * and raises before the session is touched.
   */
  method Logout(jwt: JwtService, redis: RedisStore, response: ServletResponse, authHeader: string, now: int)
    returns (reply: Reply<string>)
    modifies redis, response
    ensures ExtractToken(Some(authHeader)).None? ==>
      && reply == Returned(OK, LOGOUT_MESSAGE)
      && redis.data == old(redis.data) && response.cookies == old(response.cookies)
    ensures ExtractToken(Some(authHeader)).Some? ==>
      var token := ExtractToken(Some(authHeader)).value;
      var denied := old(redis.data)[BlacklistKey(token) := Entry(MARKER, now + LOGOUT_DENYLIST_TTL_MILLIS)];
      match jwt.ExtractUsername(token, now)
      case Failure(e) =>
        reply == Raised(e) && redis.data == denied && response.cookies == old(response.cookies)
      case Success(username) =>
        && reply == Returned(OK, LOGOUT_MESSAGE)
        && redis.data == denied - {RefreshKey(username)}
        && response.cookies == old(response.cookies) + [ClearingCookie()]
  {
    if BEARER <= authHeader {
      var token := authHeader[|BEARER|..];
      BlacklistToken(redis, token, LOGOUT_DENYLIST_TTL_MILLIS, now);
      var username := jwt.ExtractUsername(token, now);
      if username.Failure? {
        return Raised(username.error);
      }
      DeleteRefreshToken(redis, username.value);
      RemoveRefreshTokenCookie(response);
    }
    return Returned(OK, LOGOUT_MESSAGE);
  }

  /**
   * refresh: exchanges the user's current refresh token for a new pair. The supplied token
   * must be exactly the stored session; the new refresh token replaces it.
   */
  method Refresh(jwt: JwtService, redis: RedisStore, users: Users, refreshToken: string, now: int)
    returns (reply: Reply<Option<AuthenticationResponse>>)
    requires UniqueUsernames(users)
    modifies redis
    // a token that does not parse, is badly signed or has expired: the parser's exception
    ensures !Live(jwt.codec, refreshToken, now) ==>
      reply == Raised(jwt.ExtractUsername(refreshToken, now).error) && redis.data == old(redis.data)
    // a token that is not the stored session: 401 and nothing written
    ensures Live(jwt.codec, refreshToken, now) && !SessionMatches(jwt, old(redis.data), refreshToken, now) ==>
      reply == Returned(UNAUTHORIZED, None) && redis.data == old(redis.data)
    // the stored session: rotation
    ensures SessionMatches(jwt, old(redis.data), refreshToken, now) ==>
      var username := jwt.codec.parse(refreshToken).claims.subject;
      match LoadUserByUsername(users, username)
      case Failure(e) => reply == Raised(e) && redis.data == old(redis.data)
      case Success(user) =>
        var rotated := jwt.GenerateRefreshToken(user, now);
        && reply == Returned(OK, Some(AuthenticationResponse(jwt.GenerateAccessToken(user, now), Some(rotated))))
        && redis.data == old(redis.data)[RefreshKey(username) := Entry(rotated, now + SESSION_TTL_MILLIS)]
    // only the caller's own session changes
    ensures Live(jwt.codec, refreshToken, now) ==>
      forall key | key != RefreshKey(jwt.codec.parse(refreshToken).claims.subject) ::
        Lookup(redis.data, key, now) == Lookup(old(redis.data), key, now)
  {
    var username := jwt.ExtractUsername(refreshToken, now);
    if username.Failure? {
      return Raised(username.error);
    }

    var storedToken := GetRefreshToken(redis, username.value, now);
    if storedToken.None? || storedToken.value != refreshToken {
      return Returned(UNAUTHORIZED, None);
    }

    // the subject was just read with the same instant, so the token is valid for it
    var valid := jwt.IsTokenValid(refreshToken, username.value, now).value;
    if !valid {
      return Returned(UNAUTHORIZED, None);
    }

    var userDetails := LoadUserByUsername(users, username.value);
    if userDetails.Failure? {
      return Raised(userDetails.error);
    }
    var newAccessToken := jwt.GenerateAccessToken(userDetails.value, now);
    var newRefreshToken := jwt.GenerateRefreshToken(userDetails.value, now);

    DeleteRefreshToken(redis, username.value);
    StoreRefreshToken(redis, username.value, newRefreshToken, SESSION_TTL_MILLIS, now);

    return Returned(OK, Some(AuthenticationResponse(newAccessToken, Some(newRefreshToken))));
  }
}
