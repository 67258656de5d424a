/** `records/dnssec.py`: the signing keys handed to `dns.dnssec.sign_zone`, and
    the generator `iter_rrsig_key` that stamps them with a validity window. Key
    material is opaque; times are integer seconds since the epoch. */
module Dnssec {
  import opened Time

  /** A private key as loaded from PEM, and the DNSKEY made from its public half. */
  datatype PrivateKey = PrivateKey(material: seq<int>)
  datatype Dnskey = Dnskey(algorithm: int, publicKey: seq<int>)

  /** `ExtendedPrivateKey` of `dns_server_config_factory.py`. */
  datatype ExtendedPrivateKey = ExtendedPrivateKey(privateKey: PrivateKey, dnskey: Dnskey)

  /** `RRSigKey`: the keyword arguments of `sign_zone`. */
  datatype RRSigKey = RRSigKey(keys: seq<(PrivateKey, Dnskey)>, dnskeyTtl: int, inception: int, expiration: int)

  /** `ExtendedRRSigKey`: a key and the time at which the zone should be signed again. */
  datatype ExtendedRRSigKey = ExtendedRRSigKey(key: RRSigKey, resign: int)

  /** `iter_rrsig_key(max_interval, ext_private_key)`: the generator keeps no state
      between calls, so it is its two arguments. */
  datatype RRSigKeyIterator = RRSigKeyIterator(maxInterval: int, extPrivateKey: ExtendedPrivateKey)

  /** `next()` on the generator at clock reading `now`: the single key pair, the
      DNSKEY TTL 20·mi, inception now, expiration now + 52·mi, resign now + 20·mi. */
  function NextKey(it: RRSigKeyIterator, now: int): (k: ExtendedRRSigKey)
    ensures k.key.keys == [(it.extPrivateKey.privateKey, it.extPrivateKey.dnskey)]
    ensures k.key.dnskeyTtl == DnskeyTtl(it.maxInterval) == 20 * it.maxInterval
    ensures k.key.inception == now
    ensures k.key.expiration == now + 52 * it.maxInterval
    ensures k.resign == now + 20 * it.maxInterval
  {
    var lifetime := RRSigLifetimeOf(it.maxInterval);
    ExtendedRRSigKey(
      RRSigKey([(it.extPrivateKey.privateKey, it.extPrivateKey.dnskey)], DnskeyTtl(it.maxInterval),
               now, now + lifetime.expiration),
      now + lifetime.resign)
  }

  /** Keys yielded at different times differ only in their times, and the window
      keeps its length: resign and expiration move with the clock. */
  lemma KeysDifferOnlyInTime(it: RRSigKeyIterator, now1: int, now2: int)
    ensures NextKey(it, now1).key.keys == NextKey(it, now2).key.keys
    ensures NextKey(it, now1).key.dnskeyTtl == NextKey(it, now2).key.dnskeyTtl
    ensures NextKey(it, now2).key.expiration - NextKey(it, now1).key.expiration == now2 - now1
    ensures NextKey(it, now2).resign - NextKey(it, now1).resign == now2 - now1
    ensures NextKey(it, now1) == NextKey(it, now2) <==> now1 == now2
  {
  }

  /** For a positive interval a key is re-signed inside its validity window,
      with the SOA expire time (10·mi) still to spare. */
  lemma ResignInsideWindow(it: RRSigKeyIterator, now: int)
    requires it.maxInterval > 0
    ensures NextKey(it, now).key.inception < NextKey(it, now).resign < NextKey(it, now).key.expiration
    ensures NextKey(it, now).key.expiration - NextKey(it, now).resign > SoaExpire(it.maxInterval)
  {
    TimersOrdered(it.maxInterval);
  }
}
