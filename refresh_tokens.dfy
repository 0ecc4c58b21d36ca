/**
 * RefreshTokenService: the session store. Each user has at most one session, the refresh
 * token last issued to them, under the Redis key "refresh:" + username.
 */
module RefreshTokens {
  import opened Wrappers
  import opened Redis

  const REFRESH_PREFIX := "refresh:"

  function RefreshKey(username: string): string
  {
    REFRESH_PREFIX + username
  }

  /** Distinct users have distinct keys. */
  lemma RefreshKeyInjective(a: string, b: string)
    requires RefreshKey(a) == RefreshKey(b)
    ensures a == b
  {
    assert a == RefreshKey(a)[|REFRESH_PREFIX|..];
    assert b == RefreshKey(b)[|REFRESH_PREFIX|..];
  }

  /** storeRefreshToken: an unconditional overwrite with a time-to-live of `ttlMillis`. */
  method StoreRefreshToken(redis: RedisStore, username: string, refreshToken: string, ttlMillis: int, now: int)
    requires ttlMillis > 0
    modifies redis
    ensures redis.data == old(redis.data)[RefreshKey(username) := Entry(refreshToken, now + ttlMillis)]
  {
    redis.data := redis.data[RefreshKey(username) := Entry(refreshToken, now + ttlMillis)];
  }

  /** getRefreshToken: the live session of `username`, or None (null). */
  method GetRefreshToken(redis: RedisStore, username: string, now: int) returns (token: Option<string>)
    ensures token == Lookup(redis.data, RefreshKey(username), now)
  {
    var key := RefreshKey(username);
    if key in redis.data && now <= redis.data[key].expiresAt {
      token := Some(redis.data[key].value);
    } else {
      token := None;
    }
  }

  /** deleteRefreshToken: removes the session; no error when there is none. */
  method DeleteRefreshToken(redis: RedisStore, username: string)
    modifies redis
    ensures redis.data == old(redis.data) - {RefreshKey(username)}
  {
    redis.data := redis.data - {RefreshKey(username)};
  }

  /** A stored session reads back until its time-to-live has elapsed, and not after. */
  lemma StoredSessionReadsBack(data: Data, username: string, token: string, ttlMillis: int, now: int, later: int)
    requires ttlMillis > 0 && now <= later
    ensures Lookup(data[RefreshKey(username) := Entry(token, now + ttlMillis)], RefreshKey(username), later)
         == if later <= now + ttlMillis then Some(token) else None
  {
  }

  /** After a delete the user has no session. */
  lemma DeletedSessionIsAbsent(data: Data, username: string, now: int)
    ensures Lookup(data - {RefreshKey(username)}, RefreshKey(username), now) == None
  {
  }

  /** Deleting a session that is not there leaves the store as it was. */
  lemma DeleteIsIdempotent(data: Data, username: string)
    requires RefreshKey(username) !in data
    ensures data - {RefreshKey(username)} == data
  {
  }

  /** Writing or deleting one user's session leaves every other user's session as it was. */
  lemma SessionWritesAreIsolated(data: Data, username: string, other: string, entry: Entry, now: int)
    requires username != other
    ensures Lookup(data[RefreshKey(username) := entry], RefreshKey(other), now) == Lookup(data, RefreshKey(other), now)
    ensures Lookup(data - {RefreshKey(username)}, RefreshKey(other), now) == Lookup(data, RefreshKey(other), now)
  {
    if RefreshKey(username) == RefreshKey(other) {
      RefreshKeyInjective(username, other);
    }
  }
}
