/** `HealthyARecord` (`healthy_a_record.py`): the earlier record class, which
    also carries the TTL of its A record. */
module HealthyARecords {
  import opened Wrappers
  import opened Names
  import opened HealthyIps

  datatype HealthyARecord = HealthyARecord(subdomain: Name, ttlA: int, healthyIps: set<HealthyIp>)

  const TtlError := "TTL for A records must be positive"

  /** `HealthyARecord(subdomain, ttl_a, healthy_ips)`: a TTL that is not positive
      raises; otherwise the three values are kept as given. */
  function New(subdomain: Name, ttlA: int, healthyIps: set<HealthyIp>): (r: Result<HealthyARecord>)
    ensures r.Ok? <==> ttlA > 0
    ensures r.Raise? ==> r.error == ValueError(TtlError)
    ensures r.Ok? ==> r.value.subdomain == subdomain && r.value.ttlA == ttlA && r.value.healthyIps == healthyIps
  {
    if ttlA <= 0 then Raise(ValueError(TtlError))
    else Ok(HealthyARecord(subdomain, ttlA, healthyIps))
  }

  /** Whatever `__eq__` may be handed. */
  datatype Object = RecordObject(rec: HealthyARecord) | OtherObject

  /** `__eq__`: only the subdomain matters; TTL and addresses are ignored. */
  function Equals(a: HealthyARecord, other: Object): (eq: bool)
    ensures eq <==> other.RecordObject? && other.rec.subdomain == a.subdomain
  {
    match other
    case OtherObject => false
    case RecordObject(b) => a.subdomain == b.subdomain
  }

  function HashKey(a: HealthyARecord): Name
  {
    a.subdomain
  }

  /** Equal records hash alike; two records for one subdomain are equal whatever else they hold. */
  lemma HashConsistent(a: HealthyARecord, b: HealthyARecord)
    ensures Equals(a, RecordObject(b)) <==> HashKey(a) == HashKey(b)
    ensures a.subdomain == b.subdomain ==> Equals(a, RecordObject(b))
  {
  }
}
