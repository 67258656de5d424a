/** The timing policy (`records/time.py`): every TTL, SOA timer and RRSIG
    lifetime is derived from one `maxInterval`, the longest time a full round
    of health checks can take, in seconds. */
module Time {

  /** How long after inception a signature is renewed, and when it stops being valid. */
  datatype RRSigLifetime = RRSigLifetime(resign: int, expiration: int)

  function ATtl(maxInterval: int): (ttl: int)
    ensures ttl == 2 * maxInterval
  {
    maxInterval * 2
  }

  function NsTtl(maxInterval: int): (ttl: int)
    ensures ttl == 30 * ATtl(maxInterval) == 60 * maxInterval
  {
    ATtl(maxInterval) * 30
  }

  function SoaTtl(maxInterval: int): (ttl: int)
    ensures ttl == NsTtl(maxInterval) == 60 * maxInterval
  {
    NsTtl(maxInterval)
  }

  function DnskeyTtl(maxInterval: int): (ttl: int)
    ensures ttl == 10 * ATtl(maxInterval) == 20 * maxInterval
  {
    ATtl(maxInterval) * 10
  }

  function SoaRefresh(maxInterval: int): (refresh: int)
    ensures refresh == DnskeyTtl(maxInterval) == 20 * maxInterval
  {
    DnskeyTtl(maxInterval)
  }

  function SoaRetry(maxInterval: int): (retry: int)
    ensures retry == ATtl(maxInterval) == 2 * maxInterval
  {
    ATtl(maxInterval)
  }

  function SoaExpire(maxInterval: int): (expire: int)
    ensures expire == 5 * SoaRetry(maxInterval) == 10 * maxInterval
  {
    SoaRetry(maxInterval) * 5
  }

  function SoaMinTtl(maxInterval: int): (minimum: int)
    ensures minimum == ATtl(maxInterval) == SoaRetry(maxInterval)
  {
    ATtl(maxInterval)
  }

  /** Signatures are renewed every refresh period and stay valid for two refresh
      periods plus the expire and retry periods, 52 times `maxInterval` in all. */
  function RRSigLifetimeOf(maxInterval: int): (lifetime: RRSigLifetime)
    ensures lifetime.resign == SoaRefresh(maxInterval)
    ensures lifetime.expiration == 2 * SoaRefresh(maxInterval) + SoaExpire(maxInterval) + SoaRetry(maxInterval)
    ensures lifetime.expiration == 52 * maxInterval
  {
    RRSigLifetime(
      SoaRefresh(maxInterval),
      2 * SoaRefresh(maxInterval) + SoaExpire(maxInterval) + SoaRetry(maxInterval))
  }

  /** For a positive interval the timers are positive and ordered: a signature is
      renewed well before it expires, and a secondary retries before it gives up
      on the zone. */
  lemma TimersOrdered(maxInterval: int)
    requires maxInterval > 0
    ensures 0 < RRSigLifetimeOf(maxInterval).resign < RRSigLifetimeOf(maxInterval).expiration
    ensures 0 < SoaRetry(maxInterval) < SoaExpire(maxInterval)
    ensures 0 < ATtl(maxInterval) < DnskeyTtl(maxInterval) < NsTtl(maxInterval)
    ensures SoaMinTtl(maxInterval) == ATtl(maxInterval)
  {
  }

  /** The refresh period is twice the expire period, so a secondary that has
      missed a single refresh already holds an expired zone. */
  lemma RefreshExceedsExpire(maxInterval: int)
    requires maxInterval > 0
    ensures SoaRefresh(maxInterval) == 2 * SoaExpire(maxInterval)
    ensures SoaRefresh(maxInterval) > SoaExpire(maxInterval)
  {
  }

  /** The values a one-minute interval gives. */
  lemma OneMinuteInterval()
    ensures SoaTtl(60) == 3600 && SoaRefresh(60) == 1200 && SoaRetry(60) == 120
    ensures SoaExpire(60) == 600 && SoaMinTtl(60) == 120
    ensures RRSigLifetimeOf(60) == RRSigLifetime(1200, 3120)
  {
  }
}
