/** `CheckableIps` (`checkable_ips.py`): a non-empty list of validated addresses
    sharing one health-check port. */
module CheckableIps {
  import opened Wrappers
  import opened Text
  import opened Tools

  datatype CheckableIps = CheckableIps(ips: seq<string>, healthPort: int)

  const EmptyListError := "IP list cannot be empty"

  /** The index of the first address the validator rejects, if any. */
  function FirstInvalid(ips: seq<string>): (k: Option<nat>)
    ensures k.None? <==> forall i | 0 <= i < |ips| :: IsValidIp(ips[i]).success
    ensures k.Some? ==> (k.value < |ips| && !IsValidIp(ips[k.value]).success
                         && forall i | 0 <= i < k.value :: IsValidIp(ips[i]).success)
  {
    if ips == [] then None
    else if !IsValidIp(ips[0]).success then Some(0)
    else
      match FirstInvalid(ips[1..])
      case None => None
      case Some(k) => Some(k + 1)
  }

  /** `CheckableIps(ips, health_port)`: an empty list raises, then each address in
      order is validated and appended, the first bad one raising; the port is
      checked only once every address has passed. */
  method New(ips: seq<string>, healthPort: int) returns (r: Result<CheckableIps>)
    ensures ips == [] ==> r == Raise(ValueError(EmptyListError))
    ensures ips != [] && FirstInvalid(ips).Some? ==>
              var bad := ips[FirstInvalid(ips).value];
              r == Raise(ValueError("Invalid IP address '" + bad + "': " + IsValidIp(bad).error))
    ensures ips != [] && FirstInvalid(ips).None? && !IsValidPort(healthPort).success ==>
              r == Raise(ValueError("Invalid port '" + DecimalString(healthPort) + "': " + PortRangeError))
    ensures r.Ok? <==> ips != [] && FirstInvalid(ips).None? && IsValidPort(healthPort).success
    ensures r.Ok? ==> r.value == CheckableIps(ips, healthPort)
  {
    if ips == [] {
      return Raise(ValueError(EmptyListError));
    }
    var kept: seq<string> := [];
    var i := 0;
    while i < |ips|
      invariant 0 <= i <= |ips|
      invariant kept == ips[..i]
      invariant forall j | 0 <= j < i :: IsValidIp(ips[j]).success
    {
      var check := IsValidIp(ips[i]);
      if !check.success {
        return Raise(ValueError("Invalid IP address '" + ips[i] + "': " + check.error));
      }
      kept := kept + [ips[i]];
      i := i + 1;
    }
    var portCheck := IsValidPort(healthPort);
    if !portCheck.success {
      return Raise(ValueError("Invalid port '" + DecimalString(healthPort) + "': " + portCheck.error));
    }
    assert kept == ips;
    return Ok(CheckableIps(kept, healthPort));
  }
}
