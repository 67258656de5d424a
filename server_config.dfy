/** `DNSServerConfig` (`dns_server_config.py`): the validated settings of the
    first server generation. The constructor checks its arguments in a fixed
    order, raising `ValueError` with a message naming the first offending value,
    and then stores the absolute names the handler answers with. Its own
    `_is_valid_subdomain` and `_is_valid_ip` behave exactly as the functions of
    `tools/`, so the model uses `Tools.IsValidSubdomain` and `Tools.IsValidIp`. */
module ServerConfig {
  import opened Wrappers
  import opened Tools

  /** The constructor's arguments. The `resolutions` dictionary is given as its
      items in iteration order. */
  datatype ConfigArgs = ConfigArgs(
    hostedZone: string,
    nameServers: seq<string>,
    resolutions: seq<(string, seq<string>)>,
    ttlA: int,
    ttlNs: int,
    soaSerial: int,
    soaRefresh: int,
    soaRetry: int,
    soaExpire: int)

  /** The stored fields, as the properties return them. */
  datatype DNSServerConfig = DNSServerConfig(
    absHostedZone: string,
    absNameServers: seq<string>,
    absResolutions: map<string, seq<string>>,
    ttlA: int,
    ttlNs: int,
    soaSerial: int,
    soaRefresh: int,
    soaRetry: int,
    soaExpire: int)

  // ----- the messages, in the order the constructor checks -----------------

  function ZoneError(zone: string, error: string): string
  {
    "Hosted zone '" + zone + "' is not a valid FQDN: " + error
  }

  const EmptyNameServersError := "Name server list cannot be empty"

  function NameServerError(ns: string, error: string): string
  {
    "Name server '" + ns + "' is not a valid FQDN: " + error
  }

  const EmptyResolutionsError := "Zone resolution cannot be empty"

  function SubdomainError(subdomain: string, error: string): string
  {
    "Zone resolution subdomain '" + subdomain + "' is not valid: " + error
  }

  function EmptyIpListError(subdomain: string): string
  {
    "IP list for '" + subdomain + "' cannot be empty"
  }

  function IpError(ip: string, subdomain: string, error: string): string
  {
    "Invalid IP address '" + ip + "' for '" + subdomain + "': " + error
  }

  const TtlAError := "TTL for A records must be positive"
  const TtlNsError := "TTL for NS records must be positive"
  const SerialError := "SOA serial must be positive"
  const RefreshError := "SOA refresh value must be positive"
  const RetryError := "SOA retry value must be positive"
  const ExpireError := "SOA expire value must be positive"

  // ----- the checks, in order -----------------------------------------------

  /** The two validators the constructor calls, `_is_valid_subdomain` and
      `_is_valid_ip`. The checks below are written over any such pair; `Source`
      is the pair the class defines, which behaves as the functions of `tools/`. */
  datatype Validators = Validators(subdomain: string -> Validation, ip: string -> Validation)

  const Source := Validators(IsValidSubdomain, IsValidIp)

  /** One item of `resolutions` that passes: a valid subdomain with a non-empty
      list of valid addresses. */
  predicate ResolutionOk(v: Validators, entry: (string, seq<string>))
  {
    v.subdomain(entry.0).success
    && entry.1 != []
    && forall k | 0 <= k < |entry.1| :: v.ip(entry.1[k]).success
  }

  /** Everything the constructor demands of its arguments, independently of the
      order it checks them in. */
  predicate ArgsOk(v: Validators, a: ConfigArgs)
  {
    v.subdomain(a.hostedZone).success
    && a.nameServers != []
    && (forall i | 0 <= i < |a.nameServers| :: v.subdomain(a.nameServers[i]).success)
    && a.resolutions != []
    && (forall i | 0 <= i < |a.resolutions| :: ResolutionOk(v, a.resolutions[i]))
    && a.ttlA > 0 && a.ttlNs > 0 && a.soaSerial > 0
    && a.soaRefresh > 0 && a.soaRetry > 0 && a.soaExpire > 0
  }

  /** `ResolutionOk` for the class's own validators. */
  predicate ValidResolution(entry: (string, seq<string>))
  {
    IsValidSubdomain(entry.0).success
    && entry.1 != []
    && forall k | 0 <= k < |entry.1| :: IsValidIp(entry.1[k]).success
  }

  /** `ArgsOk` for the class's own validators. */
  predicate ValidArgs(a: ConfigArgs)
  {
    IsValidSubdomain(a.hostedZone).success
    && a.nameServers != []
    && (forall i | 0 <= i < |a.nameServers| :: IsValidSubdomain(a.nameServers[i]).success)
    && a.resolutions != []
    && (forall i | 0 <= i < |a.resolutions| :: ValidResolution(a.resolutions[i]))
    && a.ttlA > 0 && a.ttlNs > 0 && a.soaSerial > 0
    && a.soaRefresh > 0 && a.soaRetry > 0 && a.soaExpire > 0
  }

  /** A `for` loop that raises at the first item `check` reports. */
  function FirstError<X>(items: seq<X>, check: X -> Option<string>): (e: Option<string>)
    ensures e.None? <==> forall i | 0 <= i < |items| :: check(items[i]).None?
  {
    if items == [] then None
    else if check(items[0]).Some? then check(items[0])
    else
      assert forall i | 1 <= i < |items| :: items[i] == items[1..][i - 1];
      FirstError(items[1..], check)
  }

  /** The item that raises is the first one that fails. */
  lemma {:induction false} FirstErrorAt<X>(items: seq<X>, check: X -> Option<string>, k: nat)
    requires k < |items| && check(items[k]).Some?
    requires forall i | 0 <= i < k :: check(items[i]).None?
    ensures FirstError(items, check) == check(items[k])
    decreases k
  {
    if k > 0 {
      assert forall i | 1 <= i < |items| :: items[i] == items[1..][i - 1];
      FirstErrorAt(items[1..], check, k - 1);
    }
  }

  function NameServerCheck(v: Validators): string -> Option<string>
  {
    (ns: string) =>
      var r := v.subdomain(ns);
      if r.success then None else Some(NameServerError(ns, r.error))
  }

  function IpCheck(v: Validators, subdomain: string): string -> Option<string>
  {
    (ip: string) =>
      var r := v.ip(ip);
      if r.success then None else Some(IpError(ip, subdomain, r.error))
  }

  /** The body of the loop over `resolutions.items()`. */
  function ResolutionCheck(v: Validators, entry: (string, seq<string>)): Option<string>
  {
    var r := v.subdomain(entry.0);
    if !r.success then Some(SubdomainError(entry.0, r.error))
    else if entry.1 == [] then Some(EmptyIpListError(entry.0))
    else FirstError(entry.1, IpCheck(v, entry.0))
  }

  function ResolutionChecks(v: Validators): ((string, seq<string>)) -> Option<string>
  {
    (entry: (string, seq<string>)) => ResolutionCheck(v, entry)
  }

  /** The checks on the names, up to the last address of the last resolution. */
  function NamesError(v: Validators, a: ConfigArgs): Option<string>
  {
    var zone := v.subdomain(a.hostedZone);
    if !zone.success then Some(ZoneError(a.hostedZone, zone.error))
    else if a.nameServers == [] then Some(EmptyNameServersError)
    else if FirstError(a.nameServers, NameServerCheck(v)).Some? then FirstError(a.nameServers, NameServerCheck(v))
    else if a.resolutions == [] then Some(EmptyResolutionsError)
    else FirstError(a.resolutions, ResolutionChecks(v))
  }

  /** The six positivity checks. */
  function NumbersError(a: ConfigArgs): Option<string>
  {
    if a.ttlA <= 0 then Some(TtlAError)
    else if a.ttlNs <= 0 then Some(TtlNsError)
    else if a.soaSerial <= 0 then Some(SerialError)
    else if a.soaRefresh <= 0 then Some(RefreshError)
    else if a.soaRetry <= 0 then Some(RetryError)
    else if a.soaExpire <= 0 then Some(ExpireError)
    else None
  }

  /** The message of the `ValueError` the constructor raises, if any. */
  function ConfigError(v: Validators, a: ConfigArgs): Option<string>
  {
    if NamesError(v, a).Some? then NamesError(v, a) else NumbersError(a)
  }

  // ----- the stored fields --------------------------------------------------

  /** The key `f"{subdomain}.{hosted_zone}."` of `_abs_resolutions`. */
  function ResolutionKey(zone: string, subdomain: string): string
  {
    subdomain + "." + zone + "."
  }

  /** The dictionary comprehension: items in order, a later equal key overwriting. */
  function AbsResolutions(zone: string, res: seq<(string, seq<string>)>): map<string, seq<string>>
  {
    if res == [] then map[]
    else
      var last := res[|res| - 1];
      AbsResolutions(zone, res[..|res| - 1])[ResolutionKey(zone, last.0) := last.1]
  }

  function AbsNameServers(ns: seq<string>): seq<string>
  {
    seq(|ns|, i requires 0 <= i < |ns| => ns[i] + ".")
  }

  /** What `DNSServerConfig(...)` gives: the object, or the `ValueError`. */
  function Build(a: ConfigArgs): Result<DNSServerConfig>
  {
    match ConfigError(Source, a)
    case Some(m) => Raise(ValueError(m))
    case None =>
      Ok(DNSServerConfig(a.hostedZone + ".", AbsNameServers(a.nameServers),
                         AbsResolutions(a.hostedZone, a.resolutions),
                         a.ttlA, a.ttlNs, a.soaSerial, a.soaRefresh, a.soaRetry, a.soaExpire))
  }

  /** `primary_abs_name_server`. */
  function PrimaryAbsNameServer(c: DNSServerConfig): string
    requires c.absNameServers != []
  {
    c.absNameServers[0]
  }

  // ----- the constructor ----------------------------------------------------

  method New(a: ConfigArgs) returns (r: Result<DNSServerConfig>)
    ensures r == Build(a)
  {
    var zone := IsValidSubdomain(a.hostedZone);
    if !zone.success {
      HostedZoneFirst(a);
      return Raise(ValueError(ZoneError(a.hostedZone, zone.error)));
    }
    if a.nameServers == [] {
      EmptyListsReported(a);
      return Raise(ValueError(EmptyNameServersError));
    }
    for i := 0 to |a.nameServers|
      invariant forall j | 0 <= j < i :: IsValidSubdomain(a.nameServers[j]).success
    {
      var check := IsValidSubdomain(a.nameServers[i]);
      if !check.success {
        FirstBadNameServerReported(a, i);
        return Raise(ValueError(NameServerError(a.nameServers[i], check.error)));
      }
    }
    if a.resolutions == [] {
      EmptyListsReported(a);
      return Raise(ValueError(EmptyResolutionsError));
    }
    for i := 0 to |a.resolutions|
      invariant forall j | 0 <= j < i :: ValidResolution(a.resolutions[j])
    {
      var (subdomain, ipList) := a.resolutions[i];
      var check := IsValidSubdomain(subdomain);
      if !check.success {
        ResolutionReported(subdomain, ipList, 0);
        FirstBadResolutionReported(a, i);
        return Raise(ValueError(SubdomainError(subdomain, check.error)));
      }
      if ipList == [] {
        ResolutionReported(subdomain, ipList, 0);
        FirstBadResolutionReported(a, i);
        return Raise(ValueError(EmptyIpListError(subdomain)));
      }
      for k := 0 to |ipList|
        invariant forall j | 0 <= j < k :: IsValidIp(ipList[j]).success
      {
        var ipCheck := IsValidIp(ipList[k]);
        if !ipCheck.success {
          ResolutionReported(subdomain, ipList, k);
          FirstBadResolutionReported(a, i);
          return Raise(ValueError(IpError(ipList[k], subdomain, ipCheck.error)));
        }
      }
    }
    NumbersInOrder(a);
    if a.ttlA <= 0 {
      return Raise(ValueError(TtlAError));
    }
    if a.ttlNs <= 0 {
      return Raise(ValueError(TtlNsError));
    }
    if a.soaSerial <= 0 {
      return Raise(ValueError(SerialError));
    }
    if a.soaRefresh <= 0 {
      return Raise(ValueError(RefreshError));
    }
    if a.soaRetry <= 0 {
      return Raise(ValueError(RetryError));
    }
    if a.soaExpire <= 0 {
      return Raise(ValueError(ExpireError));
    }
    return Ok(DNSServerConfig(a.hostedZone + ".", AbsNameServers(a.nameServers),
                              AbsResolutions(a.hostedZone, a.resolutions),
                              a.ttlA, a.ttlNs, a.soaSerial, a.soaRefresh, a.soaRetry, a.soaExpire));
  }

  // ----- the checks, for any pair of validators -----------------------------

  lemma ResolutionCheckIff(v: Validators, entry: (string, seq<string>))
    ensures ResolutionCheck(v, entry).None? <==> ResolutionOk(v, entry)
  {
    forall k | 0 <= k < |entry.1| ensures IpCheck(v, entry.0)(entry.1[k]).None? <==> v.ip(entry.1[k]).success {
    }
  }

  lemma NameServersPass(v: Validators, ns: seq<string>)
    ensures FirstError(ns, NameServerCheck(v)).None? <==> forall i | 0 <= i < |ns| :: v.subdomain(ns[i]).success
  {
    forall i | 0 <= i < |ns| ensures NameServerCheck(v)(ns[i]).None? <==> v.subdomain(ns[i]).success {
    }
  }

  lemma ResolutionsPass(v: Validators, res: seq<(string, seq<string>)>)
    ensures FirstError(res, ResolutionChecks(v)).None? <==> forall i | 0 <= i < |res| :: ResolutionOk(v, res[i])
  {
    forall i | 0 <= i < |res| ensures ResolutionChecks(v)(res[i]).None? <==> ResolutionOk(v, res[i]) {
      ResolutionCheckIff(v, res[i]);
    }
  }

  /** No message exactly when every demand holds. */
  lemma ErrorIffInvalid(v: Validators, a: ConfigArgs)
    ensures ConfigError(v, a).None? <==> ArgsOk(v, a)
  {
    NameServersPass(v, a.nameServers);
    ResolutionsPass(v, a.resolutions);
  }

  /** Once the names pass, only the numbers are left. */
  lemma NamesPassed(v: Validators, a: ConfigArgs)
    requires v.subdomain(a.hostedZone).success && a.nameServers != [] && a.resolutions != []
    requires forall j | 0 <= j < |a.nameServers| :: v.subdomain(a.nameServers[j]).success
    requires forall j | 0 <= j < |a.resolutions| :: ResolutionOk(v, a.resolutions[j])
    ensures ConfigError(v, a) == NumbersError(a)
  {
    NameServersPass(v, a.nameServers);
    ResolutionsPass(v, a.resolutions);
  }

  // ----- what the constructor promises --------------------------------------

  /** The constructor returns exactly for the arguments that meet every demand, and
      anything it raises is a `ValueError`. */
  lemma AcceptedIff(a: ConfigArgs)
    ensures Build(a).Ok? <==> ValidArgs(a)
    ensures Build(a).Raise? ==> Build(a).error.ValueError?
  {
    ErrorIffInvalid(Source, a);
    SourceArgs(a);
  }

  lemma SourceResolution(entry: (string, seq<string>))
    ensures ValidResolution(entry) <==> ResolutionOk(Source, entry)
  {
  }

  lemma SourceArgs(a: ConfigArgs)
    ensures ValidArgs(a) <==> ArgsOk(Source, a)
  {
    forall i | 0 <= i < |a.resolutions| ensures ValidResolution(a.resolutions[i]) <==> ResolutionOk(Source, a.resolutions[i]) {
      SourceResolution(a.resolutions[i]);
    }
  }

  /** An invalid hosted zone is reported whatever else is wrong. */
  lemma HostedZoneFirst(a: ConfigArgs)
    requires !IsValidSubdomain(a.hostedZone).success
    ensures Build(a) == Raise(ValueError(ZoneError(a.hostedZone, IsValidSubdomain(a.hostedZone).error)))
    ensures a.hostedZone == [] ==> Build(a) == Raise(ValueError(ZoneError(a.hostedZone, EmptyNameError)))
    ensures a.hostedZone != [] ==> Build(a) == Raise(ValueError(ZoneError(a.hostedZone, LabelError)))
  {
  }

  /** An empty name-server list, and then an empty resolution dictionary, are
      reported before anything inside them is looked at. */
  lemma EmptyListsReported(a: ConfigArgs)
    requires IsValidSubdomain(a.hostedZone).success
    ensures a.nameServers == [] ==> Build(a) == Raise(ValueError(EmptyNameServersError))
    ensures (a.nameServers != [] && a.resolutions == []
             && forall j | 0 <= j < |a.nameServers| :: IsValidSubdomain(a.nameServers[j]).success) ==>
              Build(a) == Raise(ValueError(EmptyResolutionsError))
  {
    NameServersPass(Source, a.nameServers);
  }

  /** With a valid zone, the first name server that fails is the one reported. */
  lemma FirstBadNameServerReported(a: ConfigArgs, k: nat)
    requires IsValidSubdomain(a.hostedZone).success
    requires k < |a.nameServers| && !IsValidSubdomain(a.nameServers[k]).success
    requires forall j | 0 <= j < k :: IsValidSubdomain(a.nameServers[j]).success
    ensures Build(a) == Raise(ValueError(NameServerError(a.nameServers[k], IsValidSubdomain(a.nameServers[k]).error)))
  {
    FirstErrorAt(a.nameServers, NameServerCheck(Source), k);
  }

  /** A failing resolution is reported by the first check it fails: the
      subdomain, then the emptiness of its list, then its first bad address. */
  lemma ResolutionReported(subdomain: string, ips: seq<string>, k: nat)
    ensures !IsValidSubdomain(subdomain).success ==>
              ResolutionCheck(Source, (subdomain, ips)) == Some(SubdomainError(subdomain, IsValidSubdomain(subdomain).error))
    ensures IsValidSubdomain(subdomain).success && ips == [] ==>
              ResolutionCheck(Source, (subdomain, ips)) == Some(EmptyIpListError(subdomain))
    ensures (IsValidSubdomain(subdomain).success && k < |ips| && !IsValidIp(ips[k]).success
             && forall j | 0 <= j < k :: IsValidIp(ips[j]).success) ==>
              ResolutionCheck(Source, (subdomain, ips)) == Some(IpError(ips[k], subdomain, IsValidIp(ips[k]).error))
  {
    if IsValidSubdomain(subdomain).success && k < |ips| && !IsValidIp(ips[k]).success
       && forall j | 0 <= j < k :: IsValidIp(ips[j]).success
    {
      FirstErrorAt(ips, IpCheck(Source, subdomain), k);
    }
  }

  /** With valid zone and name servers, the first resolution that fails decides
      the message. */
  lemma FirstBadResolutionReported(a: ConfigArgs, k: nat)
    requires IsValidSubdomain(a.hostedZone).success && a.nameServers != []
    requires forall j | 0 <= j < |a.nameServers| :: IsValidSubdomain(a.nameServers[j]).success
    requires k < |a.resolutions| && !ValidResolution(a.resolutions[k])
    requires forall j | 0 <= j < k :: ValidResolution(a.resolutions[j])
    ensures Build(a) == Raise(ValueError(ResolutionCheck(Source, a.resolutions[k]).value))
  {
    forall j | 0 <= j < k ensures ResolutionChecks(Source)(a.resolutions[j]).None? {
      SourceResolution(a.resolutions[j]);
      ResolutionCheckIff(Source, a.resolutions[j]);
    }
    SourceResolution(a.resolutions[k]);
    ResolutionCheckIff(Source, a.resolutions[k]);
    FirstErrorAt(a.resolutions, ResolutionChecks(Source), k);
    NameServersPass(Source, a.nameServers);
  }

  /** Once the names pass, the six numbers are checked in the order ttl_a, ttl_ns,
      serial, refresh, retry, expire. */
  lemma NumbersInOrder(a: ConfigArgs)
    requires IsValidSubdomain(a.hostedZone).success && a.nameServers != [] && a.resolutions != []
    requires forall j | 0 <= j < |a.nameServers| :: IsValidSubdomain(a.nameServers[j]).success
    requires forall j | 0 <= j < |a.resolutions| :: ValidResolution(a.resolutions[j])
    ensures a.ttlA <= 0 ==> Build(a) == Raise(ValueError(TtlAError))
    ensures a.ttlA > 0 && a.ttlNs <= 0 ==> Build(a) == Raise(ValueError(TtlNsError))
    ensures a.ttlA > 0 && a.ttlNs > 0 && a.soaSerial <= 0 ==> Build(a) == Raise(ValueError(SerialError))
    ensures a.ttlA > 0 && a.ttlNs > 0 && a.soaSerial > 0 && a.soaRefresh <= 0 ==>
              Build(a) == Raise(ValueError(RefreshError))
    ensures a.ttlA > 0 && a.ttlNs > 0 && a.soaSerial > 0 && a.soaRefresh > 0 && a.soaRetry <= 0 ==>
              Build(a) == Raise(ValueError(RetryError))
    ensures (a.ttlA > 0 && a.ttlNs > 0 && a.soaSerial > 0 && a.soaRefresh > 0 && a.soaRetry > 0
             && a.soaExpire <= 0) ==> Build(a) == Raise(ValueError(ExpireError))
    ensures (a.ttlA > 0 && a.ttlNs > 0 && a.soaSerial > 0 && a.soaRefresh > 0 && a.soaRetry > 0
             && a.soaExpire > 0) ==> Build(a).Ok?
  {
    forall j | 0 <= j < |a.resolutions| ensures ResolutionOk(Source, a.resolutions[j]) {
      SourceResolution(a.resolutions[j]);
    }
    NamesPassed(Source, a);
  }

  /** The stored fields of an accepted configuration: the zone and every name
      server made absolute, in order, with the first as the primary, and the
      numbers as given. */
  lemma DerivedFields(a: ConfigArgs)
    requires Build(a).Ok?
    ensures Build(a).value.absHostedZone == a.hostedZone + "."
    ensures |Build(a).value.absNameServers| == |a.nameServers| > 0
    ensures forall i | 0 <= i < |a.nameServers| :: Build(a).value.absNameServers[i] == a.nameServers[i] + "."
    ensures PrimaryAbsNameServer(Build(a).value) == a.nameServers[0] + "."
    ensures var c := Build(a).value;
              c.ttlA == a.ttlA > 0 && c.ttlNs == a.ttlNs > 0 && c.soaSerial == a.soaSerial > 0
              && c.soaRefresh == a.soaRefresh > 0 && c.soaRetry == a.soaRetry > 0 && c.soaExpire == a.soaExpire > 0
  {
    AcceptedIff(a);
  }

  /** Different subdomains give different keys under the same zone. */
  lemma KeyInjective(zone: string, s: string, t: string)
    requires ResolutionKey(zone, s) == ResolutionKey(zone, t)
    ensures s == t
  {
    var suffix := "." + zone + ".";
    assert ResolutionKey(zone, s) == s + suffix && ResolutionKey(zone, t) == t + suffix;
    assert |s| == |t|;
    assert s == (s + suffix)[..|s|];
    assert t == (t + suffix)[..|t|];
  }

  /** The keys of `_abs_resolutions` are the subdomains placed under the zone. */
  lemma {:induction false} AbsResolutionsKeys(zone: string, res: seq<(string, seq<string>)>)
    ensures AbsResolutions(zone, res).Keys == set i | 0 <= i < |res| :: ResolutionKey(zone, res[i].0)
  {
    if res != [] {
      var init := res[..|res| - 1];
      AbsResolutionsKeys(zone, init);
      assert forall i | 0 <= i < |init| :: init[i] == res[i];
    }
  }

  /** With distinct subdomains, each key gives its subdomain's list. */
  lemma {:induction false} AbsResolutionsValues(zone: string, res: seq<(string, seq<string>)>)
    requires forall i, j | 0 <= i < j < |res| :: res[i].0 != res[j].0
    ensures forall i | 0 <= i < |res| :: ResolutionKey(zone, res[i].0) in AbsResolutions(zone, res)
                                         && AbsResolutions(zone, res)[ResolutionKey(zone, res[i].0)] == res[i].1
  {
    if res != [] {
      var init := res[..|res| - 1];
      var last := res[|res| - 1];
      AbsResolutionsValues(zone, init);
      forall i | 0 <= i < |init|
        ensures AbsResolutions(zone, res)[ResolutionKey(zone, res[i].0)] == res[i].1
      {
        assert init[i] == res[i];
        if ResolutionKey(zone, res[i].0) == ResolutionKey(zone, last.0) {
          KeyInjective(zone, res[i].0, last.0);
        }
      }
    }
  }

  /** In an accepted configuration, the A lookup of `sub.zone.` finds the
      addresses given for `sub`, and no other name is a key. */
  lemma ResolutionsOfConfig(a: ConfigArgs)
    requires Build(a).Ok?
    requires forall i, j | 0 <= i < j < |a.resolutions| :: a.resolutions[i].0 != a.resolutions[j].0
    ensures Build(a).value.absResolutions.Keys == set i | 0 <= i < |a.resolutions| :: ResolutionKey(a.hostedZone, a.resolutions[i].0)
    ensures forall i | 0 <= i < |a.resolutions| ::
              Build(a).value.absResolutions[ResolutionKey(a.hostedZone, a.resolutions[i].0)] == a.resolutions[i].1
              && a.resolutions[i].1 != []
  {
    AbsResolutionsKeys(a.hostedZone, a.resolutions);
    AbsResolutionsValues(a.hostedZone, a.resolutions);
    AcceptedIff(a);
  }
}
