/** `AHealthyRecord` (`records/a_healthy_record.py`): a subdomain and the set of
    health-checked addresses that may answer for it. */
module AHealthyRecords {
  import opened Names
  import opened AHealthyIps

  datatype AHealthyRecord = AHealthyRecord(subdomain: Name, healthyIps: set<AHealthyIp>)

  /** What `updated_ips` may be handed: the list the updater builds, or a frozenset. */
  datatype IpCollection = IpList(items: seq<AHealthyIp>) | IpFrozenSet(members: set<AHealthyIp>)

  /** `frozenset(collection)`. */
  function Members(c: IpCollection): set<AHealthyIp>
  {
    match c
    case IpList(items) => set a | a in items
    case IpFrozenSet(members) => members
  }

  /** `AHealthyRecord(subdomain, healthy_ips)`: the list is kept as a frozenset. */
  function New(subdomain: Name, ips: seq<AHealthyIp>): (r: AHealthyRecord)
    ensures r.subdomain == subdomain
    ensures forall a :: a in r.healthyIps <==> a in ips
  {
    AHealthyRecord(subdomain, set a | a in ips)
  }

  /** Order and repetition in the list are forgotten. */
  lemma NewForgetsOrder(subdomain: Name, xs: seq<AHealthyIp>, ys: seq<AHealthyIp>)
    requires forall a :: a in xs <==> a in ys
    ensures New(subdomain, xs) == New(subdomain, ys)
  {
  }

  /** Python's `collection == frozenset`: a list never equals a frozenset. */
  predicate SameAsStored(c: IpCollection, stored: set<AHealthyIp>)
  {
    c.IpFrozenSet? && c.members == stored
  }

  /** `updated_ips`: the record itself when handed an equal frozenset, otherwise a
      record for the same subdomain holding the new members. */
  function UpdatedIps(rec: AHealthyRecord, c: IpCollection): (r: AHealthyRecord)
    ensures r.subdomain == rec.subdomain && r.healthyIps == Members(c)
    ensures SameAsStored(c, rec.healthyIps) ==> r == rec
  {
    if SameAsStored(c, rec.healthyIps) then rec
    else
      match c
      case IpList(items) => New(rec.subdomain, items)
      case IpFrozenSet(members) => AHealthyRecord(rec.subdomain, members)
  }

  /** A list argument, the way the updater calls it, always takes the rebuilding branch. */
  lemma ListIsNeverStored(rec: AHealthyRecord, items: seq<AHealthyIp>)
    ensures !SameAsStored(IpList(items), rec.healthyIps)
    ensures UpdatedIps(rec, IpList(items)) == New(rec.subdomain, items)
  {
  }

  /** Whatever `__eq__` may be handed. */
  datatype Object = RecordObject(rec: AHealthyRecord) | OtherObject

  /** `__eq__`: records are the same when their subdomains are, whatever their addresses. */
  function Equals(a: AHealthyRecord, other: Object): (eq: bool)
    ensures eq <==> other.RecordObject? && other.rec.subdomain == a.subdomain
  {
    match other
    case OtherObject => false
    case RecordObject(b) => a.subdomain == b.subdomain
  }

  /** What `__hash__` hashes. */
  function HashKey(a: AHealthyRecord): Name
  {
    a.subdomain
  }

  /** No two records share a subdomain: what a Python set of records, which
      compare by subdomain, can hold. */
  predicate SubdomainsDistinct(recs: set<AHealthyRecord>)
  {
    forall a, b | a in recs && b in recs && a.subdomain == b.subdomain :: a == b
  }

  /** Equal records hash alike, and so a set of records holds one per subdomain. */
  lemma HashConsistent(a: AHealthyRecord, b: AHealthyRecord)
    ensures Equals(a, RecordObject(b)) <==> HashKey(a) == HashKey(b)
    ensures Equals(a, RecordObject(UpdatedIps(a, IpList([]))))
  {
  }
}
