/**
 * TokenBlacklistService: the denylist of access tokens revoked at logout, under the Redis
 * key "blacklist:" + token with the value "true".
 */
module Blacklist {
  import opened Wrappers
  import opened Redis
  import opened RefreshTokens

  const BLACKLIST_PREFIX := "blacklist:"
  const MARKER := "true"

  function BlacklistKey(token: string): string
  {
    BLACKLIST_PREFIX + token
  }

  /** Distinct tokens have distinct keys. */
  lemma BlacklistKeyInjective(a: string, b: string)
    requires BlacklistKey(a) == BlacklistKey(b)
    ensures a == b
  {
    assert a == BlacklistKey(a)[|BLACKLIST_PREFIX|..];
    assert b == BlacklistKey(b)[|BLACKLIST_PREFIX|..];
  }

  /** The two namespaces never meet: a session key is never a denylist key. */
  lemma KeySpacesDisjoint(username: string, token: string)
    ensures RefreshKey(username) != BlacklistKey(token)
  {
    assert RefreshKey(username)[0] == 'r';
    assert BlacklistKey(token)[0] == 'b';
  }

  /** blacklistToken: writes the marker under the token's key with a time-to-live of `ttlMillis`. */
  method BlacklistToken(redis: RedisStore, token: string, ttlMillis: int, now: int)
    requires ttlMillis > 0
    modifies redis
    ensures redis.data == old(redis.data)[BlacklistKey(token) := Entry(MARKER, now + ttlMillis)]
  {
    redis.data := redis.data[BlacklistKey(token) := Entry(MARKER, now + ttlMillis)];
  }

  /** isTokenBlacklisted: whether the token's key holds a live entry, whatever its value. */
  method IsTokenBlacklisted(redis: RedisStore, token: string, now: int) returns (blacklisted: bool)
    ensures blacklisted == Revoked(redis.data, token, now)
  {
    var key := BlacklistKey(token);
    blacklisted := key in redis.data && now <= redis.data[key].expiresAt;
  }

  /** The token is denylisted at `now`. */
  predicate Revoked(data: Data, token: string, now: int)
  {
    HasKey(data, BlacklistKey(token), now)
  }

  /** A token just blacklisted stays blacklisted until its time-to-live elapses, and not after. */
  lemma BlacklistedUntilTtl(data: Data, token: string, ttlMillis: int, now: int, later: int)
    requires ttlMillis > 0 && now <= later
    ensures Revoked(data[BlacklistKey(token) := Entry(MARKER, now + ttlMillis)], token, later)
        <==> later <= now + ttlMillis
  {
  }

  /** A store with nothing written under a token's key does not report it blacklisted. */
  lemma NeverBlacklistedIsNotRevoked(data: Data, token: string, now: int)
    requires BlacklistKey(token) !in data
    ensures !Revoked(data, token, now)
  {
  }

  /** Blacklisting one token leaves every other token's status, and every session, as it was. */
  lemma BlacklistingIsIsolated(data: Data, token: string, other: string, username: string, ttlMillis: int, now: int, at: int)
    requires token != other
    ensures Revoked(data[BlacklistKey(token) := Entry(MARKER, now + ttlMillis)], other, at) == Revoked(data, other, at)
    ensures Lookup(data[BlacklistKey(token) := Entry(MARKER, now + ttlMillis)], RefreshKey(username), at)
         == Lookup(data, RefreshKey(username), at)
  {
    if BlacklistKey(token) == BlacklistKey(other) {
      BlacklistKeyInjective(token, other);
    }
    KeySpacesDisjoint(username, token);
  }

  /** Session writes and deletes never change whether a token is blacklisted. */
  lemma SessionWritesKeepDenylist(data: Data, username: string, entry: Entry, token: string, now: int)
    ensures Revoked(data[RefreshKey(username) := entry], token, now) == Revoked(data, token, now)
    ensures Revoked(data - {RefreshKey(username)}, token, now) == Revoked(data, token, now)
  {
    KeySpacesDisjoint(username, token);
  }
}
