/** Scalar types shared by the storage layer and its clients. */
module Common {

  type byte = bv8

  /** A Python `bytes` value. */
  type Bytes = seq<byte>

  /** A point in time, in microseconds (the resolution of Python's
      `datetime`). The clock is never read: every operation that calls
      `datetime.now()` in the source takes the instant as a parameter. */
  type Instant = int

  const MicrosPerSecond: int := 1_000_000

  /** `timedelta(seconds=ttl)` added to `now`. */
  function AddSeconds(now: Instant, seconds: int): (r: Instant)
    ensures seconds > 0 ==> r > now
    ensures seconds < 0 ==> r < now
  {
    now + seconds * MicrosPerSecond
  }
}
