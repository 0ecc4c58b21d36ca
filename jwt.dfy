/**
 * JwtService: issuing access and refresh tokens and reading them back.
 *
 * A token on the wire is a string. The JWT library, with the key the service derives once
 * from its configured secret, is a `Codec`: `compact` signs a set of claims into a token and
 * `parse` checks a string's structure and signature and decodes its claims. A JWT stores its
 * instants as NumericDate, in whole seconds, so the service's millisecond instants are cut
 * down to the second when a token is built. The only thing the model assumes of the library
 * is `Sound`: a token it signed from whole-second claims parses back to those claims.
 */
module Jwt {
  import opened Wrappers
  import opened Errors
  import opened Domain

  /** The claims the service puts into a token; `roles` is absent from refresh tokens. */
  datatype Claims = Claims(subject: string, roles: Option<seq<string>>, issuedAt: int, expiration: int)

  /** What checking a string's structure and signature finds. */
  datatype Decoded = Verified(claims: Claims) | BadSignature | Malformed

  datatype Codec = Codec(compact: Claims -> string, parse: string -> Decoded)

  /**
   * The instant a JWT records for a `Date` of `millis` milliseconds: whole seconds, by
   * Java's long division, which truncates toward zero.
   */
  function WholeSeconds(millis: int): (r: int)
    ensures r % 1000 == 0
    ensures millis >= 0 ==> 0 <= r <= millis < r + 1000
    ensures millis < 0 ==> r - 1000 < millis <= r <= 0
  {
    if millis >= 0 then millis / 1000 * 1000 else -((-millis) / 1000 * 1000)
  }

  /** Claims whose instants a JWT can hold exactly. */
  predicate InWholeSeconds(c: Claims)
  {
    c.issuedAt % 1000 == 0 && c.expiration % 1000 == 0
  }

  /** Java's Character.isWhitespace. */
  predicate IsWhitespace(ch: char)
  {
    || ch == ' ' || ch == '\t' || ch == '\n' || ch == '\U{B}' || ch == '\U{C}' || ch == '\r'
    || ('\U{1C}' <= ch <= '\U{1F}')
    || ch == '\U{1680}' || ('\U{2000}' <= ch <= '\U{2006}') || ('\U{2008}' <= ch <= '\U{200A}')
    || ch == '\U{2028}' || ch == '\U{2029}' || ch == '\U{205F}' || ch == '\U{3000}'
  }

  /** Text with no character other than whitespace, which the parser refuses before reading it. */
  predicate IsBlank(token: string)
  {
    forall i | 0 <= i < |token| :: IsWhitespace(token[i])
  }

  /** `token` is not blank, has a JWT's structure and carries a signature the key accepts. */
  predicate Verifies(codec: Codec, token: string)
  {
    !IsBlank(token) && codec.parse(token).Verified?
  }

  /**
   * A token signed with the key from claims in whole seconds verifies with the same key and
   * carries the signed claims.
   */
  ghost predicate Sound(codec: Codec)
  {
    forall c: Claims | InWholeSeconds(c) :: Verifies(codec, codec.compact(c)) && codec.parse(codec.compact(c)) == Verified(c)
  }

  /** The exception the library raises, with no message of its own in this model. */
  function JwtException(kind: Kind): Exception
  {
    Exception(kind, "")
  }

  /** `token` verifies with the key and carries claims that are not yet expired at `now`. */
  predicate Live(codec: Codec, token: string, now: int)
  {
    Verifies(codec, token) && now <= codec.parse(token).claims.expiration
  }

  /**
   * The service after `init`: the codec holds the derived key; the two lifetimes, in
   * milliseconds, come from configuration.
   */
  datatype JwtService = JwtService(codec: Codec, accessTokenExpirationTime: int, refreshTokenExpirationTime: int)
  {
    /**
     * Claims of an access token: subject, the user's authorities as `roles`, and the issue
     * and expiry instants as the token records them.
     */
    function AccessClaims(user: UserDetails, now: int): Claims
    {
      Claims(user.username, Some(user.authorities), WholeSeconds(now), WholeSeconds(now + accessTokenExpirationTime))
    }

    /** Claims of a refresh token: no `roles` claim. */
    function RefreshClaims(user: UserDetails, now: int): Claims
    {
      Claims(user.username, None, WholeSeconds(now), WholeSeconds(now + refreshTokenExpirationTime))
    }

    function GenerateAccessToken(user: UserDetails, now: int): (token: string)
      ensures Sound(codec) ==> codec.parse(token) == Verified(AccessClaims(user, now))
    {
      codec.compact(AccessClaims(user, now))
    }

    function GenerateRefreshToken(user: UserDetails, now: int): (token: string)
      ensures Sound(codec) ==> codec.parse(token) == Verified(RefreshClaims(user, now))
    {
      codec.compact(RefreshClaims(user, now))
    }

    /**
     * The library's parseSignedClaims: blank text is refused with IllegalArgumentException,
     * then the structure is checked, then the signature, then the expiry; a token whose
     * expiry lies before `now` is refused with ExpiredJwtException.
     */
    function ParseSignedClaims(token: string, now: int): (r: Result<Claims, Exception>)
      ensures r.Success? <==> Live(codec, token, now)
      ensures r.Success? ==> r.value == codec.parse(token).claims
      ensures r.Failure? ==> r.error.kind in {IllegalArgument, MalformedJwt, SignatureInvalid, ExpiredJwt}
      ensures r.Failure? ==> (r.error.kind == IllegalArgument <==> IsBlank(token))
      ensures r.Failure? ==> (r.error.kind == ExpiredJwt <==> Verifies(codec, token))
    {
      if IsBlank(token) then Failure(JwtException(IllegalArgument))
      else
      match codec.parse(token)
      case Malformed => Failure(JwtException(MalformedJwt))
      case BadSignature => Failure(JwtException(SignatureInvalid))
      case Verified(c) => if c.expiration < now then Failure(JwtException(ExpiredJwt)) else Success(c)
    }

    function ExtractUsername(token: string, now: int): (r: Result<string, Exception>)
      ensures r.Success? <==> Live(codec, token, now)
      ensures r.Success? ==> r.value == codec.parse(token).claims.subject
      ensures r.Failure? ==> r.error == ParseSignedClaims(token, now).error
    {
      match ParseSignedClaims(token, now)
      case Success(c) => Success(c.subject)
      case Failure(e) => Failure(e)
    }

    /**
     * isTokenExpired: an expired token yields true instead of an exception; a token that
     * is malformed or badly signed still raises.
     */
    function IsTokenExpired(token: string, now: int): (r: Result<bool, Exception>)
      ensures r == Success(true) <==> Verifies(codec, token) && codec.parse(token).claims.expiration < now
      ensures r == Success(false) <==> Live(codec, token, now)
      ensures r.Failure? <==> !Verifies(codec, token)
      ensures r.Failure? ==> r.error.kind in {IllegalArgument, MalformedJwt, SignatureInvalid}
    {
      match ParseSignedClaims(token, now)
      case Success(c) => Success(c.expiration < now)
      case Failure(e) => if e.kind == ExpiredJwt then Success(true) else Failure(e)
    }

    /**
     * isTokenValid: the subject equals `username` and the token is not expired. Because the
     * subject is read first, an expired token raises ExpiredJwtException instead of giving false.
     */
    function IsTokenValid(token: string, username: string, now: int): (r: Result<bool, Exception>)
      ensures r == Success(true) <==> Live(codec, token, now) && codec.parse(token).claims.subject == username
      ensures r == Success(false) <==> Live(codec, token, now) && codec.parse(token).claims.subject != username
      ensures r.Failure? <==> !Live(codec, token, now)
    {
      match ExtractUsername(token, now)
      case Failure(e) => Failure(e)
      case Success(extracted) =>
        if extracted != username then Success(false)
        else
          match IsTokenExpired(token, now)
          case Failure(e) => Failure(e)
          case Success(expired) => Success(!expired)
    }
  }

  /**
   * A freshly issued access token names the user and carries the user's authorities until
   * its recorded expiry, the end of the lifetime cut down to the second.
   */
  lemma AccessTokenRoundTrip(jwt: JwtService, user: UserDetails, now: int, later: int)
    requires Sound(jwt.codec)
    requires now <= later <= WholeSeconds(now + jwt.accessTokenExpirationTime)
    ensures jwt.ExtractUsername(jwt.GenerateAccessToken(user, now), later) == Success(user.username)
    ensures jwt.ParseSignedClaims(jwt.GenerateAccessToken(user, now), later).value.roles == Some(user.authorities)
    ensures jwt.ParseSignedClaims(jwt.GenerateAccessToken(user, now), later).value.issuedAt == WholeSeconds(now)
    ensures jwt.ParseSignedClaims(jwt.GenerateAccessToken(user, now), later).value.expiration
         == WholeSeconds(now + jwt.accessTokenExpirationTime)
    ensures jwt.IsTokenExpired(jwt.GenerateAccessToken(user, now), later) == Success(false)
    ensures jwt.IsTokenValid(jwt.GenerateAccessToken(user, now), user.username, later) == Success(true)
  {
  }

  /** A freshly issued refresh token names the user and has no roles claim. */
  lemma RefreshTokenRoundTrip(jwt: JwtService, user: UserDetails, now: int, later: int)
    requires Sound(jwt.codec)
    requires now <= later <= WholeSeconds(now + jwt.refreshTokenExpirationTime)
    ensures jwt.ExtractUsername(jwt.GenerateRefreshToken(user, now), later) == Success(user.username)
    ensures jwt.ParseSignedClaims(jwt.GenerateRefreshToken(user, now), later).value.roles == None
    ensures jwt.ParseSignedClaims(jwt.GenerateRefreshToken(user, now), later).value.issuedAt == WholeSeconds(now)
    ensures jwt.ParseSignedClaims(jwt.GenerateRefreshToken(user, now), later).value.expiration
         == WholeSeconds(now + jwt.refreshTokenExpirationTime)
    ensures jwt.IsTokenValid(jwt.GenerateRefreshToken(user, now), user.username, later) == Success(true)
  {
  }

  /**
   * Past its recorded expiry a token is reported expired and reading its subject raises;
   * with a lifetime that is not a whole number of seconds this happens before now + lifetime.
   */
  lemma TokenExpires(jwt: JwtService, user: UserDetails, now: int, later: int)
    requires Sound(jwt.codec)
    requires later > WholeSeconds(now + jwt.accessTokenExpirationTime)
    ensures jwt.IsTokenExpired(jwt.GenerateAccessToken(user, now), later) == Success(true)
    ensures jwt.ExtractUsername(jwt.GenerateAccessToken(user, now), later) == Failure(JwtException(ExpiredJwt))
  {
  }

  /** A lifetime of at least a second outlasts the rounding: the token is live when issued. */
  lemma LiveWhenIssued(ttlMillis: int, now: int)
    requires ttlMillis >= 1000
    ensures now <= WholeSeconds(now + ttlMillis)
  {
  }

  /** isTokenValid is false for any other name. */
  lemma TokenInvalidForOtherUser(jwt: JwtService, user: UserDetails, other: string, now: int)
    requires Sound(jwt.codec)
    requires jwt.accessTokenExpirationTime >= 1000 && other != user.username
    ensures jwt.IsTokenValid(jwt.GenerateAccessToken(user, now), other, now) == Success(false)
  {
    LiveWhenIssued(jwt.accessTokenExpirationTime, now);
  }

  /** Signing is injective on the claims a token can hold: different claims give different tokens. */
  lemma CompactInjective(codec: Codec, a: Claims, b: Claims)
    requires Sound(codec) && InWholeSeconds(a) && InWholeSeconds(b)
    requires codec.compact(a) == codec.compact(b)
    ensures a == b
  {
    assert codec.parse(codec.compact(a)) == Verified(a);
    assert codec.parse(codec.compact(b)) == Verified(b);
  }

  /**
   * A refresh token issued in another second than the one a given token records as its issue
   * instant is a different string.
   */
  lemma ReissuedRefreshTokenDiffers(jwt: JwtService, user: UserDetails, previous: string, now: int)
    requires Sound(jwt.codec)
    requires Verifies(jwt.codec, previous) && jwt.codec.parse(previous).claims.issuedAt != WholeSeconds(now)
    ensures jwt.GenerateRefreshToken(user, now) != previous
  {
    assert jwt.codec.parse(jwt.GenerateRefreshToken(user, now)).claims.issuedAt == WholeSeconds(now);
  }

  /** Shifting an instant by whole seconds shifts its recorded second by as much. */
  lemma WholeSecondsShift(millis: int, seconds: int)
    requires millis >= 0 && seconds >= 0
    ensures WholeSeconds(millis + seconds * 1000) == WholeSeconds(millis) + seconds * 1000
  {
    assert (millis + seconds * 1000) / 1000 == millis / 1000 + seconds;
  }

  /**
   * The converse: when the refresh lifetime is a whole number of seconds, two refresh tokens
   * for the same user issued within the same second are the same string. The claims carry
   * nothing that tells them apart.
   */
  lemma SameSecondRefreshTokensCoincide(jwt: JwtService, user: UserDetails, first: int, second: int)
    requires 0 <= first && 0 <= second && first / 1000 == second / 1000
    requires jwt.refreshTokenExpirationTime >= 0 && jwt.refreshTokenExpirationTime % 1000 == 0
    ensures jwt.GenerateRefreshToken(user, first) == jwt.GenerateRefreshToken(user, second)
  {
    var seconds := jwt.refreshTokenExpirationTime / 1000;
    WholeSecondsShift(first, seconds);
    WholeSecondsShift(second, seconds);
  }
}
