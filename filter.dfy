/**
 * JwtAuthenticationFilter: the check every request passes before it reaches a controller.
 *
 * The security context is explicit: the filter receives the identity already established
 * for the request (normally none) and returns the identity the rest of the request runs
 * with, together with the renewed access token it puts into the X-New-Access-Token header.
 */
module Filter {
  import opened Wrappers
  import opened Errors
  import opened Domain
  import opened Jwt
  import opened Redis
  import opened RefreshTokens
  import opened Blacklist
  import opened Cookies

  /** The parts of an HTTP request the filter reads; no cookies is the empty sequence. */
  datatype Request = Request(uri: string, authorization: Option<string>, cookies: seq<Cookie>)

  /** The three ways doFilterInternal ends. */
  datatype FilterOutcome =
    | Rejected(status: int, message: string)                              // sendError; the chain stops
    | Continued(identity: Option<UserDetails>, newAccessToken: Option<string>) // filterChain.doFilter
    | Thrown(error: Exception)                                             // an exception escapes the filter

  const AUTH_PATH := "/api/auth"
  const BEARER := "Bearer "

  /** Login, logout and refresh are reachable without a token. */
  predicate Bypassed(request: Request)
  {
    AUTH_PATH <= request.uri
  }

  /**
   * A browser sends the refresh cookie only to paths within its scope, /api/auth/refresh,
   * and every such path is one the filter lets through untouched. So the cookie never
   * reaches the silent-renewal branch unless a client attaches it by hand.
   */
  lemma CookieScopeIsBypassed(request: Request)
    requires REFRESH_PATH <= request.uri
    ensures Bypassed(request)
  {
    assert AUTH_PATH <= REFRESH_PATH;
  }

  /** extractToken: what follows the "Bearer " prefix of the Authorization header, or None. */
  function ExtractToken(header: Option<string>): (token: Option<string>)
    ensures token.Some? <==> header.Some? && BEARER <= header.value
    ensures token.Some? ==> header.value == BEARER + token.value
  {
    if header.Some? && BEARER <= header.value then Some(header.value[|BEARER|..]) else None
  }

  /** A header built as "Bearer " + token gives back exactly that token. */
  lemma ExtractTokenInverse(token: string)
    ensures ExtractToken(Some(BEARER + token)) == Some(token)
  {
    assert BEARER <= BEARER + token;
    assert (BEARER + token)[|BEARER|..] == token;
  }

  /** The position of the first cookie called `name`. */
  function FirstNamed(cookies: seq<Cookie>, name: string): (i: Option<nat>)
    ensures i.Some? ==> i.value < |cookies| && cookies[i.value].name == name
    ensures i.Some? ==> forall j | 0 <= j < i.value :: cookies[j].name != name
    ensures i.None? ==> forall j | 0 <= j < |cookies| :: cookies[j].name != name
  {
    if |cookies| == 0 then None
    else if cookies[0].name == name then Some(0)
    else
      match FirstNamed(cookies[1..], name)
      case None => None
      case Some(k) => Some(k + 1)
  }

  /** The value of the first refreshToken cookie, or None when there is none or its value is null. */
  function RefreshCookieValue(cookies: seq<Cookie>): Option<string>
  {
    match FirstNamed(cookies, REFRESH_COOKIE)
    case None => None
    case Some(i) => cookies[i].value
  }

  /** extractRefreshTokenFromCookie: a search through the request's cookies, in order. */
  method ExtractRefreshTokenFromCookie(cookies: seq<Cookie>) returns (value: Option<string>)
    ensures value == RefreshCookieValue(cookies)
  {
    var i := 0;
    while i < |cookies|
      invariant 0 <= i <= |cookies|
      invariant forall j | 0 <= j < i :: cookies[j].name != REFRESH_COOKIE
    {
      if cookies[i].name == REFRESH_COOKIE {
        return cookies[i].value;
      }
      i := i + 1;
    }
    return None;
  }

  /** The request carries a bearer token that is not denylisted at `now`. */
  predicate Admitted(data: Data, request: Request, now: int)
  {
    && !Bypassed(request)
    && ExtractToken(request.authorization).Some?
    && !Revoked(data, ExtractToken(request.authorization).value, now)
  }

  /** The subject of a refresh token that is live and equal to that subject's stored session. */
  predicate SessionMatches(jwt: JwtService, data: Data, refreshToken: string, now: int)
  {
    && Live(jwt.codec, refreshToken, now)
    && Lookup(data, RefreshKey(jwt.codec.parse(refreshToken).claims.subject), now) == Some(refreshToken)
  }

  /**
   * doFilterInternal. Branches, in order: the auth paths pass untouched; a missing or
   * non-bearer header is refused; a denylisted token is refused before anything else is
   * checked; an expired access token is silently renewed from the refresh cookie when that
   * cookie matches the stored session, and otherwise the request continues as it was; a live
   * access token establishes its subject's identity when none is present yet.
   */
  method DoFilterInternal(jwt: JwtService, redis: RedisStore, users: Users, request: Request,
                          identity: Option<UserDetails>, now: int)
    returns (out: FilterOutcome)
    requires UniqueUsernames(users)
    // 1. the auth endpoints
    ensures Bypassed(request) ==> out == Continued(identity, None)
    // 2. and 3. the only refusals: no bearer token, or a denylisted one
    ensures out.Rejected? <==> !Bypassed(request) && !Admitted(redis.data, request, now)
    ensures out.Rejected? ==> out.status == UNAUTHORIZED
    ensures out.Rejected? ==>
      out.message == (if ExtractToken(request.authorization).Some? then "Token is blacklisted" else "Invalid token")
    // a token that is malformed or badly signed raises
    ensures Admitted(redis.data, request, now) ==>
      var token := ExtractToken(request.authorization).value;
      !Verifies(jwt.codec, token) ==> out == Thrown(jwt.IsTokenExpired(token, now).error)
    // 4. an expired access token
    ensures Admitted(redis.data, request, now) ==>
      var token := ExtractToken(request.authorization).value;
      var refreshToken := RefreshCookieValue(request.cookies);
      jwt.IsTokenExpired(token, now) == Success(true) ==>
        if refreshToken.None? then out == Continued(identity, None)
        else if !Live(jwt.codec, refreshToken.value, now) then out == Thrown(jwt.ExtractUsername(refreshToken.value, now).error)
        else if !SessionMatches(jwt, redis.data, refreshToken.value, now) then out == Continued(identity, None)
        else
          match LoadUserByUsername(users, jwt.codec.parse(refreshToken.value).claims.subject)
          case Failure(e) => out == Thrown(e)
          case Success(details) => out == Continued(Some(details), Some(jwt.GenerateAccessToken(details, now)))
    // 5. a live access token
    ensures Admitted(redis.data, request, now) ==>
      var token := ExtractToken(request.authorization).value;
      Live(jwt.codec, token, now) ==>
        if identity.Some? then out == Continued(identity, None)
        else
          match LoadUserByUsername(users, jwt.codec.parse(token).claims.subject)
          case Failure(e) => out == Thrown(e)
          case Success(details) => out == Continued(Some(details), None)
    // a new access token is issued only by a silent renewal, for the identity it establishes
    ensures out.Continued? && out.newAccessToken.Some? ==>
      && Admitted(redis.data, request, now)
      && jwt.IsTokenExpired(ExtractToken(request.authorization).value, now) == Success(true)
      && RefreshCookieValue(request.cookies).Some?
      && SessionMatches(jwt, redis.data, RefreshCookieValue(request.cookies).value, now)
      && out.identity.Some?
      && out.newAccessToken.value == jwt.GenerateAccessToken(out.identity.value, now)
    // an identity is established only from a live access token or a refresh cookie matching the session
    ensures out.Continued? && out.identity != identity ==>
      && Admitted(redis.data, request, now)
      && out.identity.Some?
      && ((Live(jwt.codec, ExtractToken(request.authorization).value, now)
           && jwt.codec.parse(ExtractToken(request.authorization).value).claims.subject == out.identity.value.username)
          || (RefreshCookieValue(request.cookies).Some?
              && SessionMatches(jwt, redis.data, RefreshCookieValue(request.cookies).value, now)
              && jwt.codec.parse(RefreshCookieValue(request.cookies).value).claims.subject == out.identity.value.username))
  {
    if Bypassed(request) {
      return Continued(identity, None);
    }

    var token := ExtractToken(request.authorization);
    if token.None? {
      return Rejected(UNAUTHORIZED, "Invalid token");
    }

    var blacklisted := IsTokenBlacklisted(redis, token.value, now);
    if blacklisted {
      return Rejected(UNAUTHORIZED, "Token is blacklisted");
    }

    var expired := jwt.IsTokenExpired(token.value, now);
    if expired.Failure? {
      return Thrown(expired.error);
    }

    if expired.value {
      var refreshToken := ExtractRefreshTokenFromCookie(request.cookies);
      if refreshToken.Some? {
        var username := jwt.ExtractUsername(refreshToken.value, now);
        if username.Failure? {
          return Thrown(username.error);
        }
        // the token was just parsed with the same instant, so it is valid for its own subject
        var valid := jwt.IsTokenValid(refreshToken.value, username.value, now).value;
        if valid {
          var stored := GetRefreshToken(redis, username.value, now);
          if stored == refreshToken {
            var details := LoadUserByUsername(users, username.value);
            if details.Failure? {
              return Thrown(details.error);
            }
            var newAccessToken := jwt.GenerateAccessToken(details.value, now);
            return Continued(Some(details.value), Some(newAccessToken));
          }
        }
      }
      return Continued(identity, None);
    } else {
      // not expired means the token parsed, so its subject can be read
      var username := jwt.ExtractUsername(token.value, now).value;
      if identity.None? {
        var details := LoadUserByUsername(users, username);
        if details.Failure? {
          return Thrown(details.error);
        }
        var valid := jwt.IsTokenValid(token.value, details.value.username, now).value;
        if valid {
          return Continued(Some(details.value), None);
        }
      }
      return Continued(identity, None);
    }
  }
}
