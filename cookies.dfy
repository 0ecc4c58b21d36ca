/**
 * CookieService: the refresh-token cookie added to a response at login and cleared at logout.
 */
module Cookies {
  import opened Wrappers

  /** A servlet cookie; `value` and `path` may be null, `maxAge` -1 means "session cookie". */
  datatype Cookie = Cookie(name: string, value: Option<string>, path: Option<string>, maxAge: int, httpOnly: bool, secure: bool)

  /** `new Cookie(name, value)`: no path, max age -1, neither HttpOnly nor Secure. */
  function NewCookie(name: string, value: Option<string>): Cookie
  {
    Cookie(name, value, None, -1, false, false)
  }

  const REFRESH_COOKIE := "refreshToken"
  const REFRESH_PATH := "/api/auth/refresh"
  const REFRESH_COOKIE_MAX_AGE := 7 * 24 * 60 * 60

  /** The cookie that carries a refresh token to the browser. */
  function RefreshTokenCookie(refreshToken: string): Cookie
  {
    Cookie(REFRESH_COOKIE, Some(refreshToken), Some(REFRESH_PATH), REFRESH_COOKIE_MAX_AGE, true, true)
  }

  /** The cookie that makes the browser drop its refresh token. */
  function ClearingCookie(): Cookie
  {
    Cookie(REFRESH_COOKIE, None, Some(REFRESH_PATH), 0, false, false)
  }

  /** The part of HttpServletResponse the services write: the cookies added so far, in order. */
  class ServletResponse {
    var cookies: seq<Cookie>

    constructor ()
      ensures cookies == []
    {
      cookies := [];
    }
  }

  /** addRefreshTokenCookie: appends one HttpOnly, Secure cookie scoped to the refresh endpoint. */
  method AddRefreshTokenCookie(response: ServletResponse, refreshToken: string)
    modifies response
    ensures |response.cookies| == |old(response.cookies)| + 1
    ensures response.cookies[..|old(response.cookies)|] == old(response.cookies)
    ensures var c := response.cookies[|response.cookies| - 1];
      && c.name == REFRESH_COOKIE && c.value == Some(refreshToken)
      && c.path == Some(REFRESH_PATH) && c.httpOnly && c.secure
      && c.maxAge == 604800
    ensures response.cookies == old(response.cookies) + [RefreshTokenCookie(refreshToken)]
  {
    var cookie := NewCookie(REFRESH_COOKIE, Some(refreshToken));
    cookie := cookie.(httpOnly := true);
    cookie := cookie.(secure := true);
    cookie := cookie.(path := Some(REFRESH_PATH));
    cookie := cookie.(maxAge := REFRESH_COOKIE_MAX_AGE);
    response.cookies := response.cookies + [cookie];
  }

  /**
   * removeRefreshTokenCookie: appends a cookie of the same name and path with no value and
   * max age 0, which tells the browser to drop the one it holds.
   */
  method RemoveRefreshTokenCookie(response: ServletResponse)
    modifies response
    ensures |response.cookies| == |old(response.cookies)| + 1
    ensures response.cookies[..|old(response.cookies)|] == old(response.cookies)
    ensures var c := response.cookies[|response.cookies| - 1];
      && c.name == REFRESH_COOKIE && c.value == None
      && c.path == Some(REFRESH_PATH) && c.maxAge == 0
    ensures response.cookies == old(response.cookies) + [ClearingCookie()]
  {
    var cookie := NewCookie(REFRESH_COOKIE, None);
    cookie := cookie.(maxAge := 0);
    cookie := cookie.(path := Some(REFRESH_PATH));
    response.cookies := response.cookies + [cookie];
  }
}
