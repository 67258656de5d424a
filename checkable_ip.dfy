/** `CheckableIp` (`checkable_ip.py`): an address and health-check port, both
    validated by the class's own checks and kept exactly as given. */
module CheckableIp {
  import opened Wrappers
  import opened Text
  import opened Tools

  datatype CheckableIp = CheckableIp(ip: string, healthPort: int)

  /** `_is_valid_ip`: the count check, then a loop that stops at the first bad
      octet. It decides exactly as the comprehension in `tools/is_valid_ip.py`. */
  method IsValidIpLoop(ip: string) returns (v: Validation)
    ensures v == IsValidIp(ip)
  {
    var parts := Split(ip, '.');
    if |parts| != 4 {
      return Validation(false, OctetCountError);
    }
    var i := 0;
    while i < |parts|
      invariant 0 <= i <= |parts|
      invariant forall j | 0 <= j < i :: IsOctet(parts[j])
    {
      var part := parts[i];
      if !(part != [] && AllDigits(part)) || !(0 <= DigitsValue(part) <= 255) {
        return Validation(false, OctetValueError);
      }
      i := i + 1;
    }
    return Accepted;
  }

  /** `_is_valid_port`. */
  function IsValidPortCheck(port: int): (v: Validation)
    ensures v == IsValidPort(port)
  {
    if !(1 <= port <= 65535) then Validation(false, PortRangeError) else Validation(true, "")
  }

  /** `CheckableIp(ip, health_port)`: the address first, then the port; the address
      is not normalised. */
  method New(ip: string, healthPort: int) returns (r: Result<CheckableIp>)
    ensures r.Ok? <==> IsValidIp(ip).success && IsValidPort(healthPort).success
    ensures !IsValidIp(ip).success ==> r == Raise(ValueError("Invalid IP address: " + IsValidIp(ip).error))
    ensures IsValidIp(ip).success && !IsValidPort(healthPort).success
            ==> r == Raise(ValueError("Invalid port: " + PortRangeError))
    ensures r.Ok? ==> r.value == CheckableIp(ip, healthPort)
  {
    var ipCheck := IsValidIpLoop(ip);
    if !ipCheck.success {
      return Raise(ValueError("Invalid IP address: " + ipCheck.error));
    }
    var portCheck := IsValidPortCheck(healthPort);
    if !portCheck.success {
      return Raise(ValueError("Invalid port: " + portCheck.error));
    }
    return Ok(CheckableIp(ip, healthPort));
  }

  datatype Object = CheckableObject(c: CheckableIp) | OtherObject

  /** `__eq__`: address and port; `__hash__` hashes the same pair. */
  function Equals(a: CheckableIp, other: Object): (eq: bool)
    ensures eq <==> other == CheckableObject(a)
  {
    match other
    case OtherObject => false
    case CheckableObject(b) => a.ip == b.ip && a.healthPort == b.healthPort
  }

  function HashKey(a: CheckableIp): (string, int)
  {
    (a.ip, a.healthPort)
  }

  lemma HashConsistent(a: CheckableIp, b: CheckableIp)
    ensures Equals(a, CheckableObject(b)) <==> HashKey(a) == HashKey(b)
  {
  }
}
