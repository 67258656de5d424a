/** `make_a_record` (`records/a_record.py`): the A record set a subdomain is
    served with, holding only the addresses currently passing their check. */
module ARecords {
  import opened Wrappers
  import opened Tools
  import opened Time
  import opened Dns
  import opened AHealthyIps
  import opened AHealthyRecords
  import opened RdataText

  /** The addresses of the members whose last check passed. */
  function HealthyAddresses(rec: AHealthyRecord): set<string>
  {
    set a | a in rec.healthyIps && a.isHealthy :: a.ip
  }

  /** No record when no member is healthy; otherwise an IN A set with TTL
      2·max_interval whose addresses are exactly the healthy members' ones. */
  function MakeARecord(maxInterval: int, rec: AHealthyRecord): (r: Option<Rdataset>)
    ensures r.None? <==> forall a | a in rec.healthyIps :: !a.isHealthy
    ensures r.None? <==> HealthyAddresses(rec) == {}
    ensures r.Some? ==> r.value.rdclass == IN && r.value.rdtype == A
    ensures r.Some? ==> r.value.ttl == ATtl(maxInterval) == 2 * maxInterval
    ensures r.Some? ==> r.value.rdatas != {}
    ensures r.Some? ==> forall d :: d in r.value.rdatas <==>
                          exists a :: a in rec.healthyIps && a.isHealthy && d == Address(a.ip)
  {
    HealthyMembersHaveAddresses(rec);
    var ips := HealthyAddresses(rec);
    if ips == {} then
      None
    else
      var ip :| ip in ips;
      assert exists a :: a in rec.healthyIps && a.isHealthy;
      var rdatas := set ip | ip in ips :: Address(ip);
      assert Address(ip) in rdatas;
      assert forall d :: d in rdatas <==> exists a :: a in rec.healthyIps && a.isHealthy && d == Address(a.ip) by {
        forall d ensures d in rdatas <==> exists a :: a in rec.healthyIps && a.isHealthy && d == Address(a.ip) {
          if d in rdatas {
            var ip' :| ip' in ips && d == Address(ip');
            var a :| a in rec.healthyIps && a.isHealthy && a.ip == ip';
          }
        }
      }
      Some(Rdataset(IN, A, ATtl(maxInterval), rdatas))
  }

  lemma HealthyMembersHaveAddresses(rec: AHealthyRecord)
    ensures forall a | a in rec.healthyIps && a.isHealthy :: a.ip in HealthyAddresses(rec)
  {
    forall a | a in rec.healthyIps && a.isHealthy ensures a.ip in HealthyAddresses(rec) {
    }
  }

  /** The record depends only on which addresses are healthy: the unhealthy
      members, and how a record's members are grouped, make no difference. */
  lemma SameHealthySameRecord(maxInterval: int, r1: AHealthyRecord, r2: AHealthyRecord)
    requires HealthyAddresses(r1) == HealthyAddresses(r2)
    ensures MakeARecord(maxInterval, r1) == MakeARecord(maxInterval, r2)
  {
    if MakeARecord(maxInterval, r1).Some? {
      var d1 := MakeARecord(maxInterval, r1).value.rdatas;
      var d2 := MakeARecord(maxInterval, r2).value.rdatas;
      forall d ensures d in d1 <==> d in d2 {
        if d in d1 {
          var a :| a in r1.healthyIps && a.isHealthy && d == Address(a.ip);
          assert a.ip in HealthyAddresses(r2);
        }
        if d in d2 {
          var a :| a in r2.healthyIps && a.isHealthy && d == Address(a.ip);
          assert a.ip in HealthyAddresses(r1);
        }
      }
    }
  }

  /** Every address served is a valid, normalised dotted quad when the members are
      (which their constructor guarantees), so the A parser of
      `dns.rdataset.from_text` reads each of them. */
  lemma AddressesAreValid(maxInterval: int, rec: AHealthyRecord)
    requires forall a | a in rec.healthyIps :: Valid(a)
    requires MakeARecord(maxInterval, rec).Some?
    ensures forall d | d in MakeARecord(maxInterval, rec).value.rdatas ::
              d.Address? && IsValidIp(d.ip).success && NormalizeIp(d.ip) == d.ip && IsAddressText(d.ip)
  {
    forall d | d in MakeARecord(maxInterval, rec).value.rdatas
      ensures d.Address? && IsValidIp(d.ip).success && NormalizeIp(d.ip) == d.ip && IsAddressText(d.ip)
    {
      var a :| a in rec.healthyIps && a.isHealthy && d == Address(a.ip);
      assert Valid(a);
      AddressTextIff(d.ip);
    }
  }
}
