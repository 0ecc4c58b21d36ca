/**
 * The Redis instance both token services share, with logical time: an entry written with a
 * time-to-live stays readable up to and including its expiry instant, as Redis removes a key
 * only once the clock has passed that instant, and is gone after it.
 */
module Redis {
  import opened Wrappers

  datatype Entry = Entry(value: string, expiresAt: int)

  type Data = map<string, Entry>

  /** GET: the value under `key` at instant `now`, absent once the entry has expired. */
  function Lookup(data: Data, key: string, now: int): Option<string>
  {
    if key in data && now <= data[key].expiresAt then Some(data[key].value) else None
  }

  /** EXISTS: `key` holds a live entry at `now`. */
  predicate HasKey(data: Data, key: string, now: int)
  {
    Lookup(data, key, now).Some?
  }

  /** The key-value store behind StringRedisTemplate. */
  class RedisStore {
    var data: Data

    constructor ()
      ensures data == map[]
    {
      data := map[];
    }
  }
}
