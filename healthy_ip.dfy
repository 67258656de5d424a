/** `HealthyIp` (`healthy_ip.py`), the earlier class that `AHealthyIp` copies:
    a normalised IPv4 address, the TCP port its health is checked on, and the
    result of the last check. It is a class of its own, so neither kind of
    value ever equals the other. */
module HealthyIps {
  import opened Wrappers
  import opened Tools

  datatype HealthyIp = HealthyIp(ip: string, healthPort: int, isHealthy: bool)

  /** What every constructed `HealthyIp` satisfies. */
  predicate Valid(a: HealthyIp)
  {
    IsValidIp(a.ip).success && NormalizeIp(a.ip) == a.ip && IsValidPort(a.healthPort).success
  }

  /** `HealthyIp(ip, health_port, is_healthy)`: the address is checked before the
      port, and the address kept is the normalised one. */
  function New(ip: string, healthPort: int, isHealthy: bool): (r: Result<HealthyIp>)
    ensures r.Ok? <==> IsValidIp(ip).success && IsValidPort(healthPort).success
    ensures !IsValidIp(ip).success ==> r == Raise(ValueError("Invalid IP address: " + IsValidIp(ip).error))
    ensures IsValidIp(ip).success && !IsValidPort(healthPort).success
            ==> r == Raise(ValueError("Invalid port: " + PortRangeError))
    ensures r.Ok? ==> r.value == HealthyIp(NormalizeIp(ip), healthPort, isHealthy) && Valid(r.value)
  {
    var ipCheck := IsValidIp(ip);
    if !ipCheck.success then Raise(ValueError("Invalid IP address: " + ipCheck.error))
    else
      var portCheck := IsValidPort(healthPort);
      if !portCheck.success then Raise(ValueError("Invalid port: " + portCheck.error))
      else
        NormalizeKeepsValid(ip);
        NormalizeIdempotent(ip);
        Ok(HealthyIp(NormalizeIp(ip), healthPort, isHealthy))
  }

  /** `updated_status`: the same value when the status is unchanged, otherwise a
      value with the same address and port and the new status (what the
      constructor builds from them, by `UpdatedStatusRebuilds`). */
  function UpdatedStatus(a: HealthyIp, isHealthy: bool): (r: HealthyIp)
    ensures r.ip == a.ip && r.healthPort == a.healthPort && r.isHealthy == isHealthy
    ensures isHealthy == a.isHealthy ==> r == a
  {
    if isHealthy == a.isHealthy then a else HealthyIp(a.ip, a.healthPort, isHealthy)
  }

  /** The constructor call `updated_status` makes for a changed status never
      raises, and builds exactly the updated value: a valid address is already
      normalised. */
  lemma UpdatedStatusRebuilds(a: HealthyIp, isHealthy: bool)
    requires Valid(a) && isHealthy != a.isHealthy
    ensures New(a.ip, a.healthPort, isHealthy) == Ok(UpdatedStatus(a, isHealthy))
  {
  }

  /** An updated status keeps a value valid. */
  lemma UpdatedStatusValid(a: HealthyIp, isHealthy: bool)
    requires Valid(a)
    ensures Valid(UpdatedStatus(a, isHealthy))
  {
  }

  /** Whatever `__eq__` may be handed: another `HealthyIp` or an object of some other class. */
  datatype Object = IpObject(ip: HealthyIp) | OtherObject

  /** `__eq__`. */
  function Equals(a: HealthyIp, other: Object): (eq: bool)
    ensures eq <==> other == IpObject(a)
    ensures other.OtherObject? ==> !eq
  {
    match other
    case OtherObject => false
    case IpObject(b) => a.ip == b.ip && a.healthPort == b.healthPort && a.isHealthy == b.isHealthy
  }

  /** The tuple `__hash__` hashes. */
  function HashKey(a: HealthyIp): (string, int, bool)
  {
    (a.ip, a.healthPort, a.isHealthy)
  }

  /** Equal values hash alike, and the hashed tuple tells values apart exactly as `__eq__` does. */
  lemma HashConsistent(a: HealthyIp, b: HealthyIp)
    ensures Equals(a, IpObject(b)) <==> HashKey(a) == HashKey(b)
  {
  }

  /** Updating twice is updating once with the last status; updating back restores the value. */
  lemma UpdatedStatusLaws(a: HealthyIp, s: bool, t: bool)
    ensures UpdatedStatus(UpdatedStatus(a, s), t) == UpdatedStatus(a, t)
    ensures UpdatedStatus(UpdatedStatus(a, s), a.isHealthy) == a
  {
  }
}
