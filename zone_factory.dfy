/** `dns_server_zone_factory.py`: builds the record sets and the empty zone the
    server starts from, out of the command-line arguments. The resolutions and
    the name servers are JSON text; every other argument is an integer, except
    the key algorithm and the key's PEM bytes. */
module ZoneFactory {
  import opened Wrappers
  import opened Text
  import opened Tools
  import opened Names
  import opened Json
  import opened FactoryCommon
  import opened Dns
  import HealthyIps
  import HealthyARecords
  import Dnssec
  import SoaRecords
  import opened RdataText

  /** The NS record set and the first name server, which the SOA record names. */
  datatype ExtendedNsRecord = ExtendedNsRecord(nsRec: Rdataset, primaryNs: string)

  /** This file's `ExtendedPrivateKey`: the key, its DNSKEY, the DNSKEY TTL and the
      signatures' lifetime. */
  datatype ExtendedPrivateKey = ExtendedPrivateKey(
    privateKey: Dnssec.PrivateKey,
    dnskey: Dnssec.Dnskey,
    dnskeyTtl: int,
    rrsigLifetime: int)

  datatype ExtendedZone = ExtendedZone(
    zone: Zone,
    nsRec: Rdataset,
    soaRec: Rdataset,
    aRecs: set<HealthyARecords.HealthyARecord>,
    extPrivKey: Option<ExtendedPrivateKey>)

  /** The arguments `make_zone` reads. The two JSON arguments are given as what
      `json.loads` makes of them; an empty PEM means no key was given. */
  datatype ZoneArgs = ZoneArgs(
    zone: string,
    resolutions: JsonText,
    nameServers: JsonText,
    aTtl: int,
    nsTtl: int,
    soaTtl: int,
    refresh: int,
    retry: int,
    expire: int,
    minTtl: int,
    dnskeyTtl: int,
    lifetime: int,
    privKeyAlg: string,
    privKeyPem: seq<bv8>)

  // ----- one resolution ----------------------------------------------------

  /** `HealthyIp(ip, health_port, False)`. */
  function MakeHealthyIp(ip: string, port: int): Result<HealthyIps.HealthyIp>
  {
    HealthyIps.New(ip, port, false)
  }

  /** A resolution the factory accepts: a valid subdomain that reads as a name
      below the origin, whose entry passes its checks, every address and the port
      passing theirs, and a positive A TTL. */
  predicate SubConfigAccepted(origin: Name, ttlA: int, subdomain: string, subConfig: Json)
  {
    IsValidSubdomain(subdomain).success && FromText(subdomain, origin).Ok?
    && var parsed := ParseSubConfig(subConfig);
       parsed.Ok? && parsed.value.Some?
       && (forall i | 0 <= i < |parsed.value.value.0| ::
             Builds(parsed.value.value.0[i], parsed.value.value.1, MakeHealthyIp))
       && ttlA > 0
  }

  /** `_make_healthy_a_record`: every failed check gives `None`, as does the
      `ValueError` of an address or of a TTL that is not positive; a subdomain too
      long to be a name below the origin raises `from_text`'s error, a missing key
      raises `KeyError` and an address that is not a string `AttributeError`. */
  function MakeHealthyARecord(origin: Name, ttlA: int, subdomain: string, subConfig: Json)
    : (r: Result<Option<HealthyARecords.HealthyARecord>>)
    ensures !IsValidSubdomain(subdomain).success ==> r == Ok(None)
    ensures IsValidSubdomain(subdomain).success && FromText(subdomain, origin).Raise? ==>
              r == Raise(FromText(subdomain, origin).error)
    ensures IsValidSubdomain(subdomain).success && FromText(subdomain, origin).Ok? && !subConfig.JObject? ==>
              r == Ok(None)
    ensures r.Raise? ==> r.error == KeyError || r.error == AttributeError || IsLengthError(r.error)
  {
    if !IsValidSubdomain(subdomain).success then Ok(None)
    else
      match FromText(subdomain, origin)
      case Raise(e) => Raise(e)
      case Ok(subdomainName) =>
      match ParseSubConfig(subConfig)
      case Raise(e) => Raise(e)
      case Ok(parsed) =>
        if parsed.None? then Ok(None)
        else
          var (ipList, healthPort) := parsed.value;
          BuildAllErrors(ipList, healthPort, MakeHealthyIp);
          match BuildAll(ipList, healthPort, MakeHealthyIp)
          case Raise(e) => if e.ValueError? then Ok(None) else Raise(e)
          case Ok(healthyIps) =>
            match HealthyARecords.New(subdomainName, ttlA, set a | a in healthyIps)
            case Raise(_) => Ok(None)
            case Ok(rec) => Ok(Some(rec))
  }

  /** What the addresses built from a list are. */
  lemma BuiltAddresses(items: seq<Json>, port: int, built: seq<HealthyIps.HealthyIp>)
    requires BuildAll(items, port, MakeHealthyIp) == Ok(built)
    ensures forall a :: a in built
                        <==> exists i | 0 <= i < |items| :: a == HealthyIps.HealthyIp(NormalizeIp(items[i].s), port, false)
    ensures forall a | a in built :: HealthyIps.Valid(a) && !a.isHealthy
  {
    forall a | a in built
      ensures exists i | 0 <= i < |items| :: a == HealthyIps.HealthyIp(NormalizeIp(items[i].s), port, false)
    {
      var i :| 0 <= i < |built| && built[i] == a;
      assert Builds(items[i], port, MakeHealthyIp);
    }
    forall i | 0 <= i < |items|
      ensures HealthyIps.HealthyIp(NormalizeIp(items[i].s), port, false) in built
    {
      assert Builds(items[i], port, MakeHealthyIp);
      assert built[i] == HealthyIps.HealthyIp(NormalizeIp(items[i].s), port, false);
    }
  }

  /** A record comes out exactly for an accepted entry: the record for the
      subdomain below the origin, with the given TTL and the set of every listed
      address, normalised and not yet healthy. */
  lemma MakeHealthyARecordLaws(origin: Name, ttlA: int, subdomain: string, subConfig: Json)
    ensures var r := MakeHealthyARecord(origin, ttlA, subdomain, subConfig);
            ((r.Ok? && r.value.Some?) <==> SubConfigAccepted(origin, ttlA, subdomain, subConfig))
            && (r.Ok? && r.value.Some? ==>
                  var parsed := ParseSubConfig(subConfig).value.value;
                  var rec := r.value.value;
                  rec.subdomain == FromText(subdomain, origin).value && rec.ttlA == ttlA
                  && (forall a :: a in rec.healthyIps
                                  <==> exists i | 0 <= i < |parsed.0| ::
                                         a == HealthyIps.HealthyIp(NormalizeIp(parsed.0[i].s), parsed.1, false))
                  && (forall a | a in rec.healthyIps :: HealthyIps.Valid(a) && !a.isHealthy))
  {
    var parsed := ParseSubConfig(subConfig);
    if IsValidSubdomain(subdomain).success && FromText(subdomain, origin).Ok? && parsed.Ok? && parsed.value.Some? {
      var (ipList, healthPort) := parsed.value.value;
      BuildAllErrors(ipList, healthPort, MakeHealthyIp);
      var built := BuildAll(ipList, healthPort, MakeHealthyIp);
      if built.Ok? {
        BuiltAddresses(ipList, healthPort, built.value);
      }
    }
  }

  /** A TTL that is not positive rejects every entry, but only once its addresses
      have been built: an address that is not a string still raises. */
  lemma NonPositiveTtlRejectsAll(origin: Name, ttlA: int, subdomain: string, subConfig: Json)
    requires ttlA <= 0
    ensures MakeHealthyARecord(origin, ttlA, subdomain, subConfig).Ok? ==>
              MakeHealthyARecord(origin, ttlA, subdomain, subConfig).value.None?
  {
    MakeHealthyARecordLaws(origin, ttlA, subdomain, subConfig);
  }

  // ----- the resolutions -----------------------------------------------------

  /** `_make_healthy_a_record` applied to one item of the resolutions. */
  function RecordBuilder(origin: Name, ttlA: int): ((string, Json)) -> Result<Option<HealthyARecords.HealthyARecord>>
  {
    (member: (string, Json)) => MakeHealthyARecord(origin, ttlA, member.0, member.1)
  }

  /** What `_make_a_records` gives: `None` for text that does not decode, for
      anything but a non-empty dictionary, and when an entry is not accepted;
      otherwise the set of records. */
  function ARecordsResult(origin: Name, ttlA: int, resolutions: JsonText)
    : Result<Option<set<HealthyARecords.HealthyARecord>>>
  {
    if !resolutions.Decoded? || !resolutions.value.JObject? || resolutions.value.members == [] then Ok(None)
    else AsSet(CollectAll(resolutions.value.members, RecordBuilder(origin, ttlA)))
  }

  /** Each record is for a subdomain strictly below the origin, carries the
      configured TTL, which is positive, and holds only valid addresses not yet
      found healthy. */
  predicate RecordsBelow(origin: Name, ttlA: int, recs: set<HealthyARecords.HealthyARecord>)
  {
    forall rec | rec in recs ::
      IsSubdomain(rec.subdomain, origin) && |rec.subdomain.labels| > |origin.labels|
      && rec.ttlA == ttlA > 0
      && forall a | a in rec.healthyIps :: HealthyIps.Valid(a) && !a.isHealthy
  }

  /** A set is produced exactly when the resolutions are a non-empty dictionary
      whose every entry is accepted. */
  lemma ARecordsAccepted(origin: Name, ttlA: int, resolutions: JsonText)
    ensures var r := ARecordsResult(origin, ttlA, resolutions);
            (r.Ok? && r.value.Some?)
            <==> resolutions.Decoded? && resolutions.value.JObject? && resolutions.value.members != []
                 && forall i | 0 <= i < |resolutions.value.members| ::
                      SubConfigAccepted(origin, ttlA, resolutions.value.members[i].0, resolutions.value.members[i].1)
  {
    if resolutions.Decoded? && resolutions.value.JObject? {
      AcceptedIff(origin, ttlA, resolutions.value.members);
    }
  }

  /** The only exceptions that escape are `from_text`'s, for a name too long,
      `KeyError` and `AttributeError`. */
  lemma ARecordsErrors(origin: Name, ttlA: int, resolutions: JsonText)
    ensures var r := ARecordsResult(origin, ttlA, resolutions);
            r.Raise? ==> r.error == KeyError || r.error == AttributeError || IsLengthError(r.error)
  {
    var r := ARecordsResult(origin, ttlA, resolutions);
    if r.Raise? {
      var members := resolutions.value.members;
      var all := CollectAll(members, RecordBuilder(origin, ttlA));
      var k :| 0 <= k < |members| && RecordBuilder(origin, ttlA)(members[k]) == Raise(all.error);
    }
  }

  /** An accepted set is not empty, and its records lie below the origin as
      `RecordsBelow` says. */
  lemma ARecordsContent(origin: Name, ttlA: int, resolutions: JsonText)
    ensures var r := ARecordsResult(origin, ttlA, resolutions);
            r.Ok? && r.value.Some? ==>
              r.value.value != {} && RecordsBelow(origin, ttlA, r.value.value)
  {
    var r := ARecordsResult(origin, ttlA, resolutions);
    if r.Ok? && r.value.Some? {
      var members := resolutions.value.members;
      var recs := CollectAll(members, RecordBuilder(origin, ttlA)).value.value;
      assert recs[0] in r.value.value;
      forall rec | rec in r.value.value
        ensures IsSubdomain(rec.subdomain, origin) && |rec.subdomain.labels| > |origin.labels|
        ensures rec.ttlA == ttlA > 0
        ensures forall a | a in rec.healthyIps :: HealthyIps.Valid(a) && !a.isHealthy
      {
        var i :| 0 <= i < |recs| && recs[i] == rec;
        CollectedRecordFacts(origin, ttlA, members, i);
      }
    }
  }

  /** An item gives a record exactly when the factory accepts it. */
  lemma AcceptedIff(origin: Name, ttlA: int, members: seq<(string, Json)>)
    ensures forall i | 0 <= i < |members| ::
              (RecordBuilder(origin, ttlA)(members[i]).Ok? && RecordBuilder(origin, ttlA)(members[i]).value.Some?)
              <==> SubConfigAccepted(origin, ttlA, members[i].0, members[i].1)
  {
    forall i | 0 <= i < |members|
      ensures (RecordBuilder(origin, ttlA)(members[i]).Ok? && RecordBuilder(origin, ttlA)(members[i]).value.Some?)
              <==> SubConfigAccepted(origin, ttlA, members[i].0, members[i].1)
    {
      MakeHealthyARecordLaws(origin, ttlA, members[i].0, members[i].1);
    }
  }

  /** The i-th record collected from the resolutions. */
  lemma CollectedRecordFacts(origin: Name, ttlA: int, members: seq<(string, Json)>, i: nat)
    requires CollectAll(members, RecordBuilder(origin, ttlA)).Ok?
    requires CollectAll(members, RecordBuilder(origin, ttlA)).value.Some?
    requires i < |members|
    ensures var rec := CollectAll(members, RecordBuilder(origin, ttlA)).value.value[i];
            IsSubdomain(rec.subdomain, origin) && |rec.subdomain.labels| > |origin.labels|
            && rec.ttlA == ttlA > 0
            && forall a | a in rec.healthyIps :: HealthyIps.Valid(a) && !a.isHealthy
  {
    var rec := CollectAll(members, RecordBuilder(origin, ttlA)).value.value[i];
    assert MakeHealthyARecord(origin, ttlA, members[i].0, members[i].1) == Ok(Some(rec));
    MakeHealthyARecordLaws(origin, ttlA, members[i].0, members[i].1);
    SplitLength(members[i].0, '.');
  }

  /** `_make_a_records`: the records added to a set one item at a time, stopping
      at the first entry that is not accepted. */
  method MakeARecords(origin: Name, ttlA: int, resolutions: JsonText)
    returns (r: Result<Option<set<HealthyARecords.HealthyARecord>>>)
    ensures r == ARecordsResult(origin, ttlA, resolutions)
  {
    if !resolutions.Decoded? || !resolutions.value.JObject? || resolutions.value.members == [] {
      return Ok(None);
    }
    r := CollectSetLoop(resolutions.value.members, RecordBuilder(origin, ttlA));
  }

  // ----- the NS record -------------------------------------------------------

  /** What `_make_ns_record` gives: `None` for text that does not decode, for
      anything but a non-empty list, at the first entry that fails the check (an
      entry that is neither a string nor falsy raises instead) and for a TTL that
      is not positive; then the IN NS set read from each server's name with a
      trailing dot, which raises `SyntaxError` if one of them does not read, and
      the first of them. */
  function NsRecordResult(nameServers: JsonText, ttlNs: int): Result<Option<ExtendedNsRecord>>
  {
    if !nameServers.Decoded? || !nameServers.value.JArray? || nameServers.value.items == [] then Ok(None)
    else
      var items := nameServers.value.items;
      match FirstBadNameServer(items)
      case Some(k) => if CheckSubdomain(items[k]).Raise? then Raise(AttributeError) else Ok(None)
      case None =>
        if ttlNs <= 0 then Ok(None)
        else if exists i | 0 <= i < |items| :: RdataName(items[i].s + ".").Raise? then Raise(SyntaxError)
        else
          Ok(Some(ExtendedNsRecord(
            Rdataset(IN, NS, ttlNs, set i | 0 <= i < |items| :: NameServer(items[i].s + ".")),
            items[0].s + ".")))
  }

  /** The entries of a list whose every entry passed the check read as names
      exactly when `from_text` makes a name of each. */
  lemma NameServersRead(items: seq<Json>)
    requires forall i | 0 <= i < |items| :: NameServerOk(items[i])
    ensures (forall i | 0 <= i < |items| :: items[i].JString? && RdataName(items[i].s + ".").Ok?)
            <==> forall i | 0 <= i < |items| :: items[i].JString? && FromText(items[i].s, Root).Ok?
  {
    forall i | 0 <= i < |items|
      ensures items[i].JString?
      ensures RdataName(items[i].s + ".").Ok? <==> FromText(items[i].s, Root).Ok?
    {
      AbsoluteNameText(items[i].s);
    }
  }

  /** A record comes out exactly when every entry is a valid name short enough
      for `from_text` and the TTL is positive; valid names that are too long
      raise `SyntaxError`. The record names every server and nothing else, and
      its primary is the first server, which it also names and which reads as a
      name. */
  lemma NsRecordLaws(nameServers: JsonText, ttlNs: int)
    ensures var r := NsRecordResult(nameServers, ttlNs);
            var checked := nameServers.Decoded? && nameServers.value.JArray? && nameServers.value.items != []
                           && (forall i | 0 <= i < |nameServers.value.items| :: NameServerOk(nameServers.value.items[i]))
                           && ttlNs > 0;
            ((r.Ok? && r.value.Some?)
             <==> checked && forall i | 0 <= i < |nameServers.value.items| ::
                               nameServers.value.items[i].JString? && FromText(nameServers.value.items[i].s, Root).Ok?)
            && (r == Raise(SyntaxError)
                <==> checked && exists i | 0 <= i < |nameServers.value.items| ::
                                  nameServers.value.items[i].JString? && FromText(nameServers.value.items[i].s, Root).Raise?)
            && (r.Raise? ==> r.error == AttributeError || r.error == SyntaxError)
            && (r.Ok? && r.value.Some? ==>
                  var items := nameServers.value.items;
                  var ns := r.value.value;
                  ns.nsRec.rdclass == IN && ns.nsRec.rdtype == NS && ns.nsRec.ttl == ttlNs
                  && (forall d :: d in ns.nsRec.rdatas
                                  <==> exists i | 0 <= i < |items| :: d == NameServer(items[i].s + "."))
                  && ns.primaryNs == items[0].s + "."
                  && NameServer(ns.primaryNs) in ns.nsRec.rdatas
                  && RdataName(ns.primaryNs).Ok?)
  {
    var r := NsRecordResult(nameServers, ttlNs);
    if nameServers.Decoded? && nameServers.value.JArray? && nameServers.value.items != []
       && FirstBadNameServer(nameServers.value.items).None? {
      var items := nameServers.value.items;
      NameServersRead(items);
      if r.Ok? && r.value.Some? {
        assert NameServer(items[0].s + ".") in r.value.value.nsRec.rdatas;
      }
    }
  }

  /** `_make_ns_record`: the names collected into a list in order, then the TTL
      check, then the record set read from the names and the list's first name. */
  method MakeNsRecord(nameServers: JsonText, ttlNs: int) returns (r: Result<Option<ExtendedNsRecord>>)
    ensures r == NsRecordResult(nameServers, ttlNs)
  {
    if !nameServers.Decoded? || !nameServers.value.JArray? || nameServers.value.items == [] {
      return Ok(None);
    }
    var items := nameServers.value.items;
    var absNameServers: seq<string> := [];
    var i := 0;
    while i < |items|
      invariant 0 <= i <= |items| && |absNameServers| == i
      invariant forall j | 0 <= j < i :: NameServerOk(items[j]) && absNameServers[j] == items[j].s + "."
    {
      var check := CheckSubdomain(items[i]);
      if check.Raise? {
        return Raise(check.error);
      }
      if !check.value.success {
        return Ok(None);
      }
      absNameServers := absNameServers + [items[i].s + "."];
      i := i + 1;
    }
    if ttlNs <= 0 {
      return Ok(None);
    }
    if exists j | 0 <= j < |absNameServers| :: RdataName(absNameServers[j]).Raise? {
      return Raise(SyntaxError);
    }
    var stored := set ns | ns in absNameServers :: NameServer(ns);
    assert stored == (set j | 0 <= j < |items| :: NameServer(items[j].s + ".")) by {
      forall d | d in stored ensures exists j | 0 <= j < |items| :: d == NameServer(items[j].s + ".") {
        var ns :| ns in absNameServers && d == NameServer(ns);
        var j :| 0 <= j < |absNameServers| && absNameServers[j] == ns;
      }
      forall j | 0 <= j < |items| ensures NameServer(items[j].s + ".") in stored {
        assert absNameServers[j] in absNameServers;
      }
    }
    return Ok(Some(ExtendedNsRecord(Rdataset(IN, NS, ttlNs, set ns | ns in absNameServers :: NameServer(ns)),
                                    absNameServers[0])));
  }

  // ----- the SOA record ------------------------------------------------------

  /** The SOA numbers `_make_soa_record` checks, in its order: TTL, refresh,
      retry, expire and minimum, each positive. */
  predicate SoaNumbersPositive(args: ZoneArgs)
  {
    args.soaTtl > 0 && args.refresh > 0 && args.retry > 0 && args.expire > 0 && args.minTtl > 0
  }

  /** `_make_soa_record`: `None` unless the TTL, refresh, retry, expire and
      minimum are all positive (they are checked in that order, each failure
      alike); otherwise the IN SOA set with serial 0 naming the primary server and
      `hostmaster.<origin>`, read from its text, which raises `SyntaxError` when a
      name does not read or a timer exceeds 32 bits. */
  function MakeSoaRecord(origin: Name, primaryNs: string, args: ZoneArgs): (r: Result<Option<Rdataset>>)
    ensures r == Ok(None) <==> !SoaNumbersPositive(args)
    ensures r.Raise? <==> SoaNumbersPositive(args)
                          && !SoaParses(primaryNs, "hostmaster." + ToText(origin), 0,
                                        args.refresh, args.retry, args.expire, args.minTtl)
    ensures r.Raise? ==> r.error == SyntaxError
    ensures r.Ok? && r.value.Some? ==> r.value.value.rdclass == IN && r.value.value.rdtype == SOA
                                       && r.value.value.ttl == args.soaTtl
    ensures r.Ok? && r.value.Some? ==> SoaRecords.SerialOf(r.value.value) == Some(0)
    ensures r.Ok? && r.value.Some? ==> r.value.value.rdatas == {Soa(primaryNs, "hostmaster." + ToText(origin), 0,
                                                                     args.refresh, args.retry, args.expire, args.minTtl)}
  {
    if args.soaTtl <= 0 then Ok(None)
    else if args.refresh <= 0 then Ok(None)
    else if args.retry <= 0 then Ok(None)
    else if args.expire <= 0 then Ok(None)
    else if args.minTtl <= 0 then Ok(None)
    else if !SoaParses(primaryNs, "hostmaster." + ToText(origin), 0, args.refresh, args.retry, args.expire, args.minTtl)
    then Raise(SyntaxError)
    else
      var d := Soa(primaryNs, "hostmaster." + ToText(origin), 0, args.refresh, args.retry, args.expire, args.minTtl);
      var r := Rdataset(IN, SOA, args.soaTtl, {d});
      assert d in r.rdatas && d.Soa? && r.rdatas == {d};
      Ok(Some(r))
  }

  /** For a validated hosted zone and a primary that reads as a name, the SOA
      text with positive numbers reads exactly when the zone's name leaves room
      for `hostmaster.` and every timer fits in 32 bits. */
  lemma ZoneSoaReads(zone: string, primaryNs: string, args: ZoneArgs)
    requires IsValidSubdomain(zone).success && FromText(zone, Root).Ok?
    requires RdataName(primaryNs).Ok? && SoaNumbersPositive(args)
    ensures MakeSoaRecord(FromText(zone, Root).value, primaryNs, args).Ok?
            <==> |zone| <= 242 && args.refresh <= MaxUint32 && args.retry <= MaxUint32
                 && args.expire <= MaxUint32 && args.minTtl <= MaxUint32
  {
    HostmasterFits(zone);
  }

  /** With the timers the time policy derives from one interval, the factory's
      SOA set is the one the SOA generator builds around serial 0, and the two
      fail alike. */
  lemma SoaMatchesTimePolicy(origin: Name, primaryNs: string, args: ZoneArgs, maxInterval: int)
    requires maxInterval > 0
    requires args.soaTtl == 60 * maxInterval && args.refresh == 20 * maxInterval && args.retry == 2 * maxInterval
    requires args.expire == 10 * maxInterval && args.minTtl == 2 * maxInterval
    ensures MakeSoaRecord(origin, primaryNs, args).Ok? <==> SoaRecords.SoaRecord(maxInterval, origin, primaryNs, 0).Ok?
    ensures SoaRecords.SoaRecord(maxInterval, origin, primaryNs, 0).Ok? ==>
              MakeSoaRecord(origin, primaryNs, args) == Ok(Some(SoaRecords.SoaRecord(maxInterval, origin, primaryNs, 0).value))
  {
  }

  // ----- the key and the zone ------------------------------------------------

  /** `_make_private_key`: `None` unless the DNSKEY TTL and the lifetime are both
      positive and `buildKey` accepts the algorithm and the PEM bytes; otherwise
      the key with both numbers. */
  function MakePrivateKey(args: ZoneArgs, buildKey: (string, seq<bv8>) -> Option<(Dnssec.PrivateKey, Dnssec.Dnskey)>)
    : (r: Option<ExtendedPrivateKey>)
    ensures r.Some? <==> args.dnskeyTtl > 0 && args.lifetime > 0 && buildKey(args.privKeyAlg, args.privKeyPem).Some?
    ensures r.Some? ==> var built := buildKey(args.privKeyAlg, args.privKeyPem).value;
                        r.value == ExtendedPrivateKey(built.0, built.1, args.dnskeyTtl, args.lifetime)
  {
    if args.dnskeyTtl <= 0 then None
    else if args.lifetime <= 0 then None
    else
      match buildKey(args.privKeyAlg, args.privKeyPem)
      case None => None
      case Some(built) => Some(ExtendedPrivateKey(built.0, built.1, args.dnskeyTtl, args.lifetime))
  }

  /** Every step of `make_zone` accepts: the hosted zone reads as a name, the
      resolutions give records below it, the name servers and the TTL give the NS
      set, the SOA numbers are positive and the SOA text reads, and a key is built
      whenever PEM bytes are given. */
  predicate ZoneAccepted(args: ZoneArgs, buildKey: (string, seq<bv8>) -> Option<(Dnssec.PrivateKey, Dnssec.Dnskey)>)
  {
    IsValidSubdomain(args.zone).success && FromText(args.zone, Root).Ok?
    && var aRecords := ARecordsResult(FromText(args.zone, Root).value, args.aTtl, args.resolutions);
       var ns := NsRecordResult(args.nameServers, args.nsTtl);
       aRecords.Ok? && aRecords.value.Some? && ns.Ok? && ns.value.Some?
       && SoaNumbersPositive(args)
       && |args.zone| <= 242 && args.refresh <= MaxUint32 && args.retry <= MaxUint32
       && args.expire <= MaxUint32 && args.minTtl <= MaxUint32
       && (args.privKeyPem != [] ==> MakePrivateKey(args, buildKey).Some?)
  }

  /** `make_zone`: each step in turn, the first `None` giving `None`, a key built
      only when PEM bytes are given, and an empty zone at the origin. */
  function MakeZone(args: ZoneArgs, buildKey: (string, seq<bv8>) -> Option<(Dnssec.PrivateKey, Dnssec.Dnskey)>)
    : (r: Result<Option<ExtendedZone>>)
    ensures r.Ok? && r.value.Some? ==>
              IsValidSubdomain(args.zone).success && FromText(args.zone, Root).Ok?
              && var origin := FromText(args.zone, Root).value;
                 var z := r.value.value;
                 var ns := NsRecordResult(args.nameServers, args.nsTtl);
                 z.zone == Zone(origin, map[], None)
                 && ARecordsResult(origin, args.aTtl, args.resolutions) == Ok(Some(z.aRecs))
                 && ns.Ok? && ns.value.Some? && z.nsRec == ns.value.value.nsRec
                 && Ok(Some(z.soaRec)) == MakeSoaRecord(origin, ns.value.value.primaryNs, args)
                 && z.extPrivKey == (if args.privKeyPem != [] then MakePrivateKey(args, buildKey) else None)
  {
    match MakeOriginName(args.zone)
    case Raise(e) => Raise(e)
    case Ok(None) => Ok(None)
    case Ok(Some(origin)) =>
      match ARecordsResult(origin, args.aTtl, args.resolutions)
      case Raise(e) => Raise(e)
      case Ok(aRecords) =>
        if aRecords.None? || aRecords.value == {} then Ok(None)
        else
          match NsRecordResult(args.nameServers, args.nsTtl)
          case Raise(e) => Raise(e)
          case Ok(extNsRec) =>
            if extNsRec.None? then Ok(None)
            else
              match MakeSoaRecord(origin, extNsRec.value.primaryNs, args)
              case Raise(e) => Raise(e)
              case Ok(None) => Ok(None)
              case Ok(Some(soaRec)) =>
                var zone := Zone(origin, map[], None);
                if args.privKeyPem != [] then
                  match MakePrivateKey(args, buildKey)
                  case None => Ok(None)
                  case Some(key) => Ok(Some(ExtendedZone(zone, extNsRec.value.nsRec, soaRec, aRecords.value, Some(key))))
                else Ok(Some(ExtendedZone(zone, extNsRec.value.nsRec, soaRec, aRecords.value, None)))
  }

  /** An invalid hosted zone stops everything, and the only exceptions that
      escape are `from_text`'s, for a name too long, `KeyError`,
      `AttributeError`, and the `SyntaxError` of record text that does not read. */
  lemma MakeZoneErrors(args: ZoneArgs, buildKey: (string, seq<bv8>) -> Option<(Dnssec.PrivateKey, Dnssec.Dnskey)>)
    ensures var r := MakeZone(args, buildKey);
            (!IsValidSubdomain(args.zone).success ==> r == Ok(None))
            && (r.Raise? ==> r.error == KeyError || r.error == AttributeError || r.error == SyntaxError
                             || IsLengthError(r.error))
  {
    if IsValidSubdomain(args.zone).success && FromText(args.zone, Root).Ok? {
      var origin := FromText(args.zone, Root).value;
      ARecordsErrors(origin, args.aTtl, args.resolutions);
      NsRecordLaws(args.nameServers, args.nsTtl);
    }
  }

  /** A zone comes out exactly when every step accepts. */
  lemma MakeZoneAccepted(args: ZoneArgs, buildKey: (string, seq<bv8>) -> Option<(Dnssec.PrivateKey, Dnssec.Dnskey)>)
    ensures var r := MakeZone(args, buildKey);
            (r.Ok? && r.value.Some?) <==> ZoneAccepted(args, buildKey)
  {
    if IsValidSubdomain(args.zone).success && FromText(args.zone, Root).Ok? {
      var origin := FromText(args.zone, Root).value;
      ARecordsContent(origin, args.aTtl, args.resolutions);
      NsRecordLaws(args.nameServers, args.nsTtl);
      var ns := NsRecordResult(args.nameServers, args.nsTtl);
      if ns.Ok? && ns.value.Some? && SoaNumbersPositive(args) {
        ZoneSoaReads(args.zone, ns.value.value.primaryNs, args);
      }
    }
  }

  /** A built zone is the empty zone at the hosted zone's absolute name, with at
      least one A record, and its records lie below the origin as `RecordsBelow`
      says. */
  lemma MakeZoneRecords(args: ZoneArgs, buildKey: (string, seq<bv8>) -> Option<(Dnssec.PrivateKey, Dnssec.Dnskey)>)
    ensures var r := MakeZone(args, buildKey);
            r.Ok? && r.value.Some? ==>
              var z := r.value.value;
              var origin := FromText(args.zone, Root).value;
              z.zone == Zone(origin, map[], None) && origin.absolute && ToText(origin) == args.zone + "."
              && z.aRecs != {} && RecordsBelow(origin, args.aTtl, z.aRecs)
  {
    var r := MakeZone(args, buildKey);
    if r.Ok? && r.value.Some? {
      var origin := MakeOriginName(args.zone).value.value;
      ARecordsContent(origin, args.aTtl, args.resolutions);
    }
  }

  /** A built zone's NS set has the configured TTL and names the primary server,
      its SOA set is the factory's SOA for that primary, with serial 0, and there
      is a key exactly when PEM bytes were given. */
  lemma MakeZoneApex(args: ZoneArgs, buildKey: (string, seq<bv8>) -> Option<(Dnssec.PrivateKey, Dnssec.Dnskey)>)
    ensures var r := MakeZone(args, buildKey);
            r.Ok? && r.value.Some? ==>
              var z := r.value.value;
              z.nsRec.rdtype == NS && z.nsRec.ttl == args.nsTtl > 0
              && (exists primaryNs :: NameServer(primaryNs) in z.nsRec.rdatas
                                      && Ok(Some(z.soaRec)) == MakeSoaRecord(FromText(args.zone, Root).value, primaryNs, args))
              && SoaRecords.SerialOf(z.soaRec) == Some(0)
              && (z.extPrivKey.Some? <==> args.privKeyPem != [])
              && (z.extPrivKey.Some? ==> z.extPrivKey == MakePrivateKey(args, buildKey))
  {
    var r := MakeZone(args, buildKey);
    if r.Ok? && r.value.Some? {
      var origin := MakeOriginName(args.zone).value.value;
      NsRecordLaws(args.nameServers, args.nsTtl);
      var ns := NsRecordResult(args.nameServers, args.nsTtl).value.value;
      assert NameServer(ns.primaryNs) in r.value.value.nsRec.rdatas;
      assert Ok(Some(r.value.value.soaRec)) == MakeSoaRecord(origin, ns.primaryNs, args);
    }
  }
}
