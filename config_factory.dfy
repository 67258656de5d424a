/** `dns_server_config_factory.py`: builds the updater's configuration from the
    command-line arguments, whose resolutions and name servers are JSON text.
    Two calls in the file cannot succeed as written (see `MakeHealthyARecordAsWritten`
    and `MakeNameServersAsWritten`); the rest of the model uses the corrected
    operations, which build the record classes the updater works on. */
module ConfigFactory {
  import opened Wrappers
  import opened Text
  import opened Tools
  import opened Names
  import opened Json
  import opened FactoryCommon
  import AHealthyIps
  import opened AHealthyRecords
  import HealthyIps
  import HealthyARecords
  import opened Dnssec

  /** `DnsServerConfig`, with its records of the class the updater works on. */
  datatype DnsServerConfig = DnsServerConfig(
    originName: Name,
    nameServers: set<string>,
    aRecords: set<AHealthyRecord>,
    extPrivateKey: Option<ExtendedPrivateKey>)

  /** The arguments `make_config` reads. The two JSON arguments are given as what
      `json.loads` makes of them. */
  datatype ConfigArgs = ConfigArgs(
    zone: string,
    resolutions: JsonText,
    nameServers: JsonText,
    privKeyPath: string,
    privKeyAlg: string)

  // ----- one resolution ----------------------------------------------------

  /** `AHealthyIp(ip, health_port, False)`. */
  function MakeIp(ip: string, port: int): Result<AHealthyIps.AHealthyIp>
  {
    AHealthyIps.New(ip, port, false)
  }

  /** `HealthyIp(ip, health_port, False)`. */
  function MakeHealthyIp(ip: string, port: int): Result<HealthyIps.HealthyIp>
  {
    HealthyIps.New(ip, port, false)
  }

  /** Both address classes accept exactly the same entries. */
  lemma SameAddressesAccepted(j: Json, port: int)
    ensures Builds(j, port, MakeIp) <==> Builds(j, port, MakeHealthyIp)
  {
  }

  /** A resolution the factory accepts: a valid subdomain that reads as a name
      below the origin, whose entry passes its checks, with every address and the
      port passing theirs. */
  predicate SubConfigAccepted(origin: Name, subdomain: string, subConfig: Json)
  {
    IsValidSubdomain(subdomain).success && FromText(subdomain, origin).Ok?
    && var parsed := ParseSubConfig(subConfig);
       parsed.Ok? && parsed.value.Some?
       && forall i | 0 <= i < |parsed.value.value.0| :: Builds(parsed.value.value.0[i], parsed.value.value.1, MakeIp)
  }

  /** `_make_healthy_a_record` as it is meant to work, with the record classes the
      updater uses: every check that fails gives `None`; a subdomain too long to
      be a name below the origin raises `from_text`'s error, a missing key raises
      `KeyError`, and an address that is not a string raises `AttributeError`. An
      accepted entry gives the record for the subdomain below the origin holding
      every listed address, normalised and not yet healthy. */
  function MakeHealthyARecord(origin: Name, subdomain: string, subConfig: Json): (r: Result<Option<AHealthyRecord>>)
    ensures !IsValidSubdomain(subdomain).success ==> r == Ok(None)
    ensures IsValidSubdomain(subdomain).success && FromText(subdomain, origin).Raise? ==>
              r == Raise(FromText(subdomain, origin).error)
    ensures IsValidSubdomain(subdomain).success && FromText(subdomain, origin).Ok? && !subConfig.JObject? ==>
              r == Ok(None)
    ensures r.Raise? ==> r.error == KeyError || r.error == AttributeError || IsLengthError(r.error)
  {
    if !IsValidSubdomain(subdomain).success then Ok(None)
    else
      match FromText(subdomain, origin)
      case Raise(e) => Raise(e)
      case Ok(subdomainName) =>
      match ParseSubConfig(subConfig)
      case Raise(e) => Raise(e)
      case Ok(parsed) =>
        if parsed.None? then Ok(None)
        else
          var (ipList, healthPort) := parsed.value;
          BuildAllErrors(ipList, healthPort, MakeIp);
          match BuildAll(ipList, healthPort, MakeIp)
          case Raise(e) => if e.ValueError? then Ok(None) else Raise(e)
          case Ok(healthyIps) => Ok(Some(AHealthyRecords.New(subdomainName, healthyIps)))
  }

  /** A record comes out exactly for an accepted entry, and it is the record for
      the subdomain below the origin holding every listed address, normalised and
      not yet healthy. */
  lemma MakeHealthyARecordLaws(origin: Name, subdomain: string, subConfig: Json)
    ensures var r := MakeHealthyARecord(origin, subdomain, subConfig);
            ((r.Ok? && r.value.Some?) <==> SubConfigAccepted(origin, subdomain, subConfig))
            && (r.Ok? && r.value.Some? ==>
                  var parsed := ParseSubConfig(subConfig).value.value;
                  var rec := r.value.value;
                  rec.subdomain == FromText(subdomain, origin).value
                  && (forall a :: a in rec.healthyIps
                                  <==> exists i | 0 <= i < |parsed.0| ::
                                         a == AHealthyIps.AHealthyIp(NormalizeIp(parsed.0[i].s), parsed.1, false))
                  && (forall a | a in rec.healthyIps :: AHealthyIps.Valid(a) && !a.isHealthy))
  {
    var parsed := ParseSubConfig(subConfig);
    if IsValidSubdomain(subdomain).success && FromText(subdomain, origin).Ok? && parsed.Ok? && parsed.value.Some? {
      var (ipList, healthPort) := parsed.value.value;
      BuildAllErrors(ipList, healthPort, MakeIp);
      var built := BuildAll(ipList, healthPort, MakeIp);
      if built.Ok? {
        BuiltAddresses(ipList, healthPort, built.value);
      }
    }
  }

  /** What the addresses built from a list are. */
  lemma BuiltAddresses(items: seq<Json>, port: int, built: seq<AHealthyIps.AHealthyIp>)
    requires BuildAll(items, port, MakeIp) == Ok(built)
    ensures forall a :: a in built
                        <==> exists i | 0 <= i < |items| :: a == AHealthyIps.AHealthyIp(NormalizeIp(items[i].s), port, false)
    ensures forall a | a in built :: AHealthyIps.Valid(a) && !a.isHealthy
  {
    forall a | a in built
      ensures exists i | 0 <= i < |items| :: a == AHealthyIps.AHealthyIp(NormalizeIp(items[i].s), port, false)
    {
      var i :| 0 <= i < |built| && built[i] == a;
      assert Builds(items[i], port, MakeIp);
    }
    forall i | 0 <= i < |items|
      ensures AHealthyIps.AHealthyIp(NormalizeIp(items[i].s), port, false) in built
    {
      assert Builds(items[i], port, MakeIp);
      assert built[i] == AHealthyIps.AHealthyIp(NormalizeIp(items[i].s), port, false);
    }
  }

  /** `_make_healthy_a_record` as written: it calls `HealthyARecord(subdomain_name,
      healthy_ips)`, leaving out the TTL that class requires, so every accepted
      entry raises `TypeError`, which nothing catches. On every other entry it
      behaves as the corrected operation. */
  function MakeHealthyARecordAsWritten(origin: Name, subdomain: string, subConfig: Json)
    : (r: Result<Option<HealthyARecords.HealthyARecord>>)
    ensures r.Ok? ==> r.value.None?
    ensures SubConfigAccepted(origin, subdomain, subConfig) ==> r == Raise(TypeError)
    ensures !SubConfigAccepted(origin, subdomain, subConfig) ==>
              var intended := MakeHealthyARecord(origin, subdomain, subConfig);
              (r.Ok? <==> intended.Ok?) && (r.Raise? ==> r.error == intended.error)
  {
    if !IsValidSubdomain(subdomain).success then Ok(None)
    else
      match FromText(subdomain, origin)
      case Raise(e) => Raise(e)
      case Ok(_) =>
      match ParseSubConfig(subConfig)
      case Raise(e) => Raise(e)
      case Ok(parsed) =>
        if parsed.None? then Ok(None)
        else
          var (ipList, healthPort) := parsed.value;
          MakeHealthyARecordLaws(origin, subdomain, subConfig);
          SameBuildOutcome(ipList, healthPort);
          match BuildAll(ipList, healthPort, MakeHealthyIp)
          case Raise(e) => if e.ValueError? then Ok(None) else Raise(e)
          case Ok(_) => Raise(TypeError)
  }

  /** The two address classes fail on the same entry with the same error. */
  lemma {:induction false} SameBuildOutcome(items: seq<Json>, port: int)
    ensures BuildAll(items, port, MakeIp).Ok? <==> BuildAll(items, port, MakeHealthyIp).Ok?
    ensures BuildAll(items, port, MakeIp).Raise? ==>
              BuildAll(items, port, MakeIp).error == BuildAll(items, port, MakeHealthyIp).error
  {
    if items != [] {
      SameAddressesAccepted(items[0], port);
      SameBuildOutcome(items[1..], port);
    }
  }

  // ----- the resolutions -----------------------------------------------------

  /** `_make_healthy_a_record` applied to one item of the resolutions. */
  function RecordBuilder(origin: Name): ((string, Json)) -> Result<Option<AHealthyRecord>>
  {
    (member: (string, Json)) => MakeHealthyARecord(origin, member.0, member.1)
  }

  /** What `_make_a_records` gives: `None` for text that does not decode, for
      anything but a non-empty dictionary, and when an entry is not accepted;
      otherwise the set of records. */
  function ARecordsResult(origin: Name, resolutions: JsonText): Result<Option<set<AHealthyRecord>>>
  {
    if !resolutions.Decoded? || !resolutions.value.JObject? || resolutions.value.members == [] then Ok(None)
    else
      match CollectAll(resolutions.value.members, RecordBuilder(origin))
      case Raise(e) => Raise(e)
      case Ok(recs) => if recs.None? then Ok(None) else Ok(Some(set rec | rec in recs.value))
  }

  /** Everything an accepted set of resolutions holds: at least one record, each
      for a subdomain strictly below the origin, each address valid and not yet
      healthy (`RecordsBelow`); a set is produced exactly when every entry is
      accepted; and the only exceptions that escape are `from_text`'s, for a name
      too long, `KeyError` and `AttributeError`. */
  lemma ARecordsLaws(origin: Name, resolutions: JsonText)
    ensures var r := ARecordsResult(origin, resolutions);
            ((r.Ok? && r.value.Some?)
             <==> resolutions.Decoded? && resolutions.value.JObject? && resolutions.value.members != []
                  && forall i | 0 <= i < |resolutions.value.members| ::
                       SubConfigAccepted(origin, resolutions.value.members[i].0, resolutions.value.members[i].1))
            && (r.Raise? ==> r.error == KeyError || r.error == AttributeError || IsLengthError(r.error))
            && (r.Ok? && r.value.Some? ==> r.value.value != {} && RecordsBelow(origin, r.value.value))
  {
    var r := ARecordsResult(origin, resolutions);
    if resolutions.Decoded? && resolutions.value.JObject? {
      var members := resolutions.value.members;
      AcceptedIff(origin, members);
      if r.Raise? {
        var k :| 0 <= k < |members| && RecordBuilder(origin)(members[k]) == Raise(r.error);
      }
      ARecordsContent(origin, resolutions);
    }
  }

  /** An item gives a record exactly when the factory accepts it. */
  lemma AcceptedIff(origin: Name, members: seq<(string, Json)>)
    ensures forall i | 0 <= i < |members| ::
              (RecordBuilder(origin)(members[i]).Ok? && RecordBuilder(origin)(members[i]).value.Some?)
              <==> SubConfigAccepted(origin, members[i].0, members[i].1)
  {
    forall i | 0 <= i < |members|
      ensures (RecordBuilder(origin)(members[i]).Ok? && RecordBuilder(origin)(members[i]).value.Some?)
              <==> SubConfigAccepted(origin, members[i].0, members[i].1)
    {
      MakeHealthyARecordLaws(origin, members[i].0, members[i].1);
    }
  }

  /** Each record is for a subdomain strictly below the origin and holds only
      valid addresses not yet found healthy. */
  predicate RecordsBelow(origin: Name, recs: set<AHealthyRecord>)
  {
    forall rec | rec in recs ::
      IsSubdomain(rec.subdomain, origin) && |rec.subdomain.labels| > |origin.labels|
      && forall a | a in rec.healthyIps :: AHealthyIps.Valid(a) && !a.isHealthy
  }

  /** An accepted set is not empty, and its records lie below the origin as
      `RecordsBelow` says. */
  lemma ARecordsContent(origin: Name, resolutions: JsonText)
    ensures var r := ARecordsResult(origin, resolutions);
            r.Ok? && r.value.Some? ==> r.value.value != {} && RecordsBelow(origin, r.value.value)
  {
    var r := ARecordsResult(origin, resolutions);
    if r.Ok? && r.value.Some? {
      var members := resolutions.value.members;
      var recs := CollectAll(members, RecordBuilder(origin)).value.value;
      assert recs[0] in r.value.value;
      forall rec | rec in r.value.value
        ensures IsSubdomain(rec.subdomain, origin) && |rec.subdomain.labels| > |origin.labels|
        ensures forall a | a in rec.healthyIps :: AHealthyIps.Valid(a) && !a.isHealthy
      {
        var i :| 0 <= i < |recs| && recs[i] == rec;
        CollectedRecordFacts(origin, members, i);
      }
    }
  }

  /** The i-th record collected from the items. */
  lemma CollectedRecordFacts(origin: Name, members: seq<(string, Json)>, i: nat)
    requires CollectAll(members, RecordBuilder(origin)).Ok? && CollectAll(members, RecordBuilder(origin)).value.Some?
    requires i < |members|
    ensures var rec := CollectAll(members, RecordBuilder(origin)).value.value[i];
            IsSubdomain(rec.subdomain, origin) && |rec.subdomain.labels| > |origin.labels|
            && forall a | a in rec.healthyIps :: AHealthyIps.Valid(a) && !a.isHealthy
  {
    var rec := CollectAll(members, RecordBuilder(origin)).value.value[i];
    assert MakeHealthyARecord(origin, members[i].0, members[i].1) == Ok(Some(rec));
    MakeHealthyARecordLaws(origin, members[i].0, members[i].1);
    SplitLength(members[i].0, '.');
  }

  /** The dictionary `json.loads` returns holds each subdomain once, and distinct
      subdomains read as distinct names below the origin: the records built from
      it never share a subdomain. */
  lemma ARecordsDistinct(origin: Name, resolutions: JsonText)
    requires resolutions.Decoded? && resolutions.value.JObject? ==> DistinctKeys(resolutions.value.members)
    ensures var r := ARecordsResult(origin, resolutions);
            r.Ok? && r.value.Some? ==> SubdomainsDistinct(r.value.value)
  {
    var r := ARecordsResult(origin, resolutions);
    if r.Ok? && r.value.Some? {
      var members := resolutions.value.members;
      var recs := CollectAll(members, RecordBuilder(origin)).value.value;
      forall a, b | a in r.value.value && b in r.value.value && a.subdomain == b.subdomain
        ensures a == b
      {
        var i :| 0 <= i < |recs| && recs[i] == a;
        var j :| 0 <= j < |recs| && recs[j] == b;
        assert MakeHealthyARecord(origin, members[i].0, members[i].1) == Ok(Some(a));
        assert MakeHealthyARecord(origin, members[j].0, members[j].1) == Ok(Some(b));
        MakeHealthyARecordLaws(origin, members[i].0, members[i].1);
        MakeHealthyARecordLaws(origin, members[j].0, members[j].1);
        FromTextInjective(members[i].0, members[j].0, origin);
        assert i == j;
      }
    }
  }

  /** `_make_a_records`: the loop over the items, stopping at the first entry that
      is not accepted. */
  method MakeARecords(origin: Name, resolutions: JsonText) returns (r: Result<Option<set<AHealthyRecord>>>)
    ensures r == ARecordsResult(origin, resolutions)
  {
    if !resolutions.Decoded? || !resolutions.value.JObject? || resolutions.value.members == [] {
      return Ok(None);
    }
    var aRecords := CollectLoop(resolutions.value.members, RecordBuilder(origin));
    if aRecords.Raise? {
      return Raise(aRecords.error);
    }
    if aRecords.value.None? {
      return Ok(None);
    }
    return Ok(Some(set rec | rec in aRecords.value.value));
  }

  // ----- the name servers ----------------------------------------------------

  /** What `_make_name_servers` is meant to give: `None` for text that does not
      decode, for anything but a non-empty list, and at the first entry that fails
      the check (an entry that is neither a string nor falsy raises instead);
      otherwise each name with a trailing dot. */
  function NameServersResult(nameServers: JsonText): Result<Option<set<string>>>
  {
    if !nameServers.Decoded? || !nameServers.value.JArray? || nameServers.value.items == [] then Ok(None)
    else
      var items := nameServers.value.items;
      match FirstBadNameServer(items)
      case Some(k) => if CheckSubdomain(items[k]).Raise? then Raise(AttributeError) else Ok(None)
      case None => Ok(Some(set i | 0 <= i < |items| :: items[i].s + "."))
  }

  /** A set comes out exactly when every entry is a valid name; it is never empty,
      and it holds each name followed by a dot. */
  lemma NameServersLaws(nameServers: JsonText)
    ensures var r := NameServersResult(nameServers);
            ((r.Ok? && r.value.Some?)
             <==> nameServers.Decoded? && nameServers.value.JArray? && nameServers.value.items != []
                  && forall i | 0 <= i < |nameServers.value.items| :: NameServerOk(nameServers.value.items[i]))
            && (r.Raise? ==> r.error == AttributeError)
            && (r.Ok? && r.value.Some? ==>
                  var items := nameServers.value.items;
                  r.value.value != {}
                  && (forall ns :: ns in r.value.value <==> exists i | 0 <= i < |items| :: ns == items[i].s + ".")
                  && forall ns | ns in r.value.value :: |ns| > 0 && ns[|ns| - 1] == '.')
  {
    var r := NameServersResult(nameServers);
    if r.Ok? && r.value.Some? {
      var items := nameServers.value.items;
      assert items[0].s + "." in r.value.value;
    }
  }

  /** `_make_name_servers` with the names collected into a list, as the zone
      factory's copy of this loop does. */
  method MakeNameServers(nameServers: JsonText) returns (r: Result<Option<set<string>>>)
    ensures r == NameServersResult(nameServers)
  {
    if !nameServers.Decoded? || !nameServers.value.JArray? || nameServers.value.items == [] {
      return Ok(None);
    }
    var items := nameServers.value.items;
    var absNameServers: seq<string> := [];
    var i := 0;
    while i < |items|
      invariant 0 <= i <= |items| && |absNameServers| == i
      invariant forall j | 0 <= j < i :: NameServerOk(items[j]) && absNameServers[j] == items[j].s + "."
    {
      var check := CheckSubdomain(items[i]);
      if check.Raise? {
        return Raise(check.error);
      }
      if !check.value.success {
        return Ok(None);
      }
      absNameServers := absNameServers + [items[i].s + "."];
      i := i + 1;
    }
    assert (set ns | ns in absNameServers) == (set j | 0 <= j < |items| :: items[j].s + ".") by {
      forall j | 0 <= j < |items| ensures items[j].s + "." in absNameServers {
        assert absNameServers[j] == items[j].s + ".";
      }
    }
    return Ok(Some(set ns | ns in absNameServers));
  }

  /** The list is a non-empty list whose first entry passes the check. */
  predicate FirstPasses(nameServers: JsonText)
  {
    nameServers.Decoded? && nameServers.value.JArray? && nameServers.value.items != []
    && NameServerOk(nameServers.value.items[0])
  }

  /** `_make_name_servers` as written: it calls `.add` on a list, which raises
      `AttributeError` as soon as the first entry passes its check. It therefore
      never returns a set; it agrees with the corrected operation only when the
      first entry fails. */
  method MakeNameServersAsWritten(nameServers: JsonText) returns (r: Result<Option<set<string>>>)
    ensures r.Ok? ==> r.value.None?
    ensures FirstPasses(nameServers) ==> r == Raise(AttributeError)
    ensures !FirstPasses(nameServers) ==> r == NameServersResult(nameServers)
  {
    if !nameServers.Decoded? || !nameServers.value.JArray? || nameServers.value.items == [] {
      return Ok(None);
    }
    // The loop never reaches its second entry: the first either fails the
    // check or reaches `abs_name_servers.add(...)`, which a list does not have.
    var ns := nameServers.value.items[0];
    var check := CheckSubdomain(ns);
    if check.Raise? {
      return Raise(check.error);
    }
    if !check.value.success {
      return Ok(None);
    }
    return Raise(AttributeError);
  }

  // ----- the configuration ---------------------------------------------------

  /** `_make_private_key`: the key file's bytes (`readKey` is `None` when it cannot be
      read), then the key and its DNSKEY built from them (`buildKey` is `None` when
      the algorithm or the key is rejected). Empty contents give `None` too. */
  function MakePrivateKey(path: string, alg: string, readKey: string -> Option<seq<bv8>>,
                          buildKey: (string, seq<bv8>) -> Option<(PrivateKey, Dnskey)>)
    : (r: Option<ExtendedPrivateKey>)
    ensures r.Some? <==> readKey(path).Some? && readKey(path).value != [] && buildKey(alg, readKey(path).value).Some?
    ensures r.Some? ==> var built := buildKey(alg, readKey(path).value).value;
                        r.value == ExtendedPrivateKey(built.0, built.1)
  {
    var pem := readKey(path);
    if pem.None? || pem.value == [] then None
    else
      match buildKey(alg, pem.value)
      case None => None
      case Some(built) => Some(ExtendedPrivateKey(built.0, built.1))
  }

  /** Every step of `make_config` accepts: the hosted zone reads as a name, the
      resolutions give records below it, the name servers give names, and a key
      is built whenever a key path is given. */
  predicate ConfigAccepted(args: ConfigArgs, readKey: string -> Option<seq<bv8>>,
                           buildKey: (string, seq<bv8>) -> Option<(PrivateKey, Dnskey)>)
  {
    IsValidSubdomain(args.zone).success && FromText(args.zone, Root).Ok?
    && var aRecords := ARecordsResult(FromText(args.zone, Root).value, args.resolutions);
       var nameServers := NameServersResult(args.nameServers);
       aRecords.Ok? && aRecords.value.Some? && nameServers.Ok? && nameServers.value.Some?
       && (args.privKeyPath != [] ==> MakePrivateKey(args.privKeyPath, args.privKeyAlg, readKey, buildKey).Some?)
  }

  /** `make_config` with the corrected operations: each step in turn, the first
      `None` giving `None`, and a key built only when a key path is given. A
      configuration comes out exactly when every step accepts, and it holds what
      each step gave. */
  function MakeConfig(args: ConfigArgs, readKey: string -> Option<seq<bv8>>,
                      buildKey: (string, seq<bv8>) -> Option<(PrivateKey, Dnskey)>)
    : (r: Result<Option<DnsServerConfig>>)
    ensures !IsValidSubdomain(args.zone).success ==> r == Ok(None)
    ensures r.Raise? ==> r.error == KeyError || r.error == AttributeError || IsLengthError(r.error)
    ensures (r.Ok? && r.value.Some?) <==> ConfigAccepted(args, readKey, buildKey)
    ensures r.Ok? && r.value.Some? ==>
              var origin := FromText(args.zone, Root).value;
              r.value.value == DnsServerConfig(
                origin,
                NameServersResult(args.nameServers).value.value,
                ARecordsResult(origin, args.resolutions).value.value,
                if args.privKeyPath != [] then MakePrivateKey(args.privKeyPath, args.privKeyAlg, readKey, buildKey)
                else None)
  {
    match MakeOriginName(args.zone)
    case Raise(e) => Raise(e)
    case Ok(None) => Ok(None)
    case Ok(Some(origin)) =>
      ARecordsLaws(origin, args.resolutions);
      NameServersLaws(args.nameServers);
      match ARecordsResult(origin, args.resolutions)
      case Raise(e) => Raise(e)
      case Ok(aRecords) =>
        if aRecords.None? || aRecords.value == {} then Ok(None)
        else
          match NameServersResult(args.nameServers)
          case Raise(e) => Raise(e)
          case Ok(nameServers) =>
            if nameServers.None? || nameServers.value == {} then Ok(None)
            else if args.privKeyPath != [] then
              match MakePrivateKey(args.privKeyPath, args.privKeyAlg, readKey, buildKey)
              case None => Ok(None)
              case Some(key) => Ok(Some(DnsServerConfig(origin, nameServers.value, aRecords.value, Some(key))))
            else Ok(Some(DnsServerConfig(origin, nameServers.value, aRecords.value, None)))
  }

  /** What a configuration holds: the absolute hosted zone, at least one name
      server, each ending in a dot, at least one record, each for a subdomain
      strictly below the zone with valid addresses not yet healthy, and a key
      exactly when a key path is given. When the resolutions came out of
      `json.loads`, no two records share a subdomain. */
  lemma MakeConfigLaws(args: ConfigArgs, readKey: string -> Option<seq<bv8>>,
                       buildKey: (string, seq<bv8>) -> Option<(PrivateKey, Dnskey)>)
    requires args.resolutions.Decoded? && args.resolutions.value.JObject? ==>
               DistinctKeys(args.resolutions.value.members)
    ensures var r := MakeConfig(args, readKey, buildKey);
            r.Ok? && r.value.Some? ==>
              var c := r.value.value;
              c.originName.absolute && ToText(c.originName) == args.zone + "."
              && c.nameServers != {} && (forall ns | ns in c.nameServers :: |ns| > 0 && ns[|ns| - 1] == '.')
              && c.aRecords != {} && SubdomainsDistinct(c.aRecords) && RecordsBelow(c.originName, c.aRecords)
              && (c.extPrivateKey.Some? <==> args.privKeyPath != [])
  {
    var r := MakeConfig(args, readKey, buildKey);
    if r.Ok? && r.value.Some? {
      var origin := MakeOriginName(args.zone).value.value;
      ARecordsLaws(origin, args.resolutions);
      ARecordsDistinct(origin, args.resolutions);
      NameServersLaws(args.nameServers);
    }
  }
}
