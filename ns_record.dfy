/** `make_ns_record` (`records/ns_record.py`): the zone's NS record set. */
module NsRecords {
  import opened Wrappers
  import opened Time
  import opened Dns
  import opened RdataText

  /** An IN NS set with TTL 60·max_interval naming every given server, read from
      the servers' text: a server whose text is not a name raises `SyntaxError`.
      An empty set of servers gives an empty record set. */
  function MakeNsRecord(maxInterval: int, nameServers: set<string>): (r: Result<Rdataset>)
    ensures r.Ok? <==> forall ns | ns in nameServers :: RdataName(ns).Ok?
    ensures r.Raise? ==> r.error == SyntaxError
    ensures r.Ok? ==> r.value.rdclass == IN && r.value.rdtype == NS
    ensures r.Ok? ==> r.value.ttl == NsTtl(maxInterval) == 60 * maxInterval
    ensures r.Ok? ==> forall d :: d in r.value.rdatas <==> d.NameServer? && d.target in nameServers
  {
    if exists ns | ns in nameServers :: RdataName(ns).Raise? then Raise(SyntaxError)
    else Ok(Rdataset(IN, NS, NsTtl(maxInterval), set ns | ns in nameServers :: NameServer(ns)))
  }

  /** The servers named by a record set. */
  function Targets(r: Rdataset): set<string>
  {
    set d | d in r.rdatas && d.NameServer? :: d.target
  }

  /** The record names exactly the servers it was built from. */
  lemma TargetsRoundTrip(maxInterval: int, nameServers: set<string>)
    requires MakeNsRecord(maxInterval, nameServers).Ok?
    ensures Targets(MakeNsRecord(maxInterval, nameServers).value) == nameServers
  {
    var r := MakeNsRecord(maxInterval, nameServers).value;
    forall ns | ns in nameServers ensures ns in Targets(r) {
      assert NameServer(ns) in r.rdatas;
    }
  }
}
