/** What the two factories (`dns_server_config_factory.py` and
    `dns_server_zone_factory.py`) do alike: the hosted zone check, the
    validator applied to decoded JSON values, and the comprehension that builds
    one address object per JSON entry. */
module FactoryCommon {
  import opened Wrappers
  import opened Text
  import opened Tools
  import opened Names
  import opened Json

  const ArgSubdomainHealthPort := "health_port"
  const ArgSubdomainIpList := "ips"

  /** `is_valid_subdomain(value)` for a value straight out of JSON: a string is
      checked as usual, a falsy value is reported empty, and any other value has no
      `split` and raises `AttributeError`. */
  function CheckSubdomain(j: Json): (r: Result<Validation>)
    ensures j.JString? ==> r == Ok(IsValidSubdomain(j.s))
    ensures !j.JString? ==> (r.Raise? <==> Truthy(j))
    ensures !j.JString? && Truthy(j) ==> r.error == AttributeError
    ensures !j.JString? && !Truthy(j) ==> r.value == Validation(false, EmptyNameError)
  {
    if j.JString? then Ok(IsValidSubdomain(j.s))
    else if !Truthy(j) then Ok(Validation(false, EmptyNameError))
    else Raise(AttributeError)
  }

  /** An entry of a name-server list that passes the check. */
  predicate NameServerOk(j: Json)
  {
    j.JString? && IsValidSubdomain(j.s).success
  }

  /** The position of the first name server that does not pass, if any. */
  function FirstBadNameServer(items: seq<Json>): (k: Option<nat>)
    ensures k.None? <==> forall i | 0 <= i < |items| :: NameServerOk(items[i])
    ensures k.Some? ==> k.value < |items| && !NameServerOk(items[k.value])
                        && forall i | 0 <= i < k.value :: NameServerOk(items[i])
  {
    if items == [] then None
    else if !NameServerOk(items[0]) then Some(0)
    else
      match FirstBadNameServer(items[1..])
      case None => None
      case Some(k) => Some(k + 1)
  }

  /** `_make_origin_name`: a valid hosted zone becomes the absolute name with its
      labels, unless it is too long for a name and `from_text` raises; an invalid
      one gives `None`. */
  function MakeOriginName(zone: string): (r: Result<Option<Name>>)
    ensures (r.Ok? && r.value.None?) <==> !IsValidSubdomain(zone).success
    ensures r.Raise? <==> IsValidSubdomain(zone).success && FromText(zone, Root).Raise?
    ensures r.Raise? ==> r.error == FromText(zone, Root).error && IsLengthError(r.error)
    ensures r.Ok? && r.value.Some? ==>
              r.value.value == FromText(zone, Root).value
              && r.value.value.absolute && WellFormed(r.value.value) && ToText(r.value.value) == zone + "."
  {
    if !IsValidSubdomain(zone).success then Ok(None)
    else
      match FromText(zone, Root)
      case Raise(e) => Raise(e)
      case Ok(n) =>
        SubdomainLabels(zone);
        FromTextWellFormed(zone, Root);
        assert n.labels == Split(zone, '.');
        Ok(Some(n))
  }

  /** A validated name has no empty label. */
  lemma SubdomainLabels(zone: string)
    requires IsValidSubdomain(zone).success
    ensures forall i | 0 <= i < |Split(zone, '.')| :: Split(zone, '.')[i] != []
  {
    assert AllLabels(Split(zone, '.'));
  }

  /** An entry of an IP list that the address constructor accepts. */
  predicate Builds<T>(j: Json, port: int, mk: (string, int) -> Result<T>)
  {
    j.JString? && mk(j.s, port).Ok?
  }

  /** What the constructor raises for an entry it does not accept: a non-string has
      no `split`. */
  function BuildError<T>(j: Json, port: int, mk: (string, int) -> Result<T>): PyError
    requires !Builds(j, port, mk)
  {
    if !j.JString? then AttributeError else mk(j.s, port).error
  }

  /** `[Ip(ip, health_port, False) for ip in ip_list]`: the entries are built in
      order and the first one that raises ends the comprehension. */
  function BuildAll<T>(items: seq<Json>, port: int, mk: (string, int) -> Result<T>): (r: Result<seq<T>>)
    ensures r.Ok? <==> forall i | 0 <= i < |items| :: Builds(items[i], port, mk)
    ensures r.Ok? ==> |r.value| == |items|
                      && forall i | 0 <= i < |items| :: r.value[i] == mk(items[i].s, port).value
    ensures r.Raise? ==> exists k | 0 <= k < |items| ::
                           (forall i | 0 <= i < k :: Builds(items[i], port, mk))
                           && !Builds(items[k], port, mk) && r.error == BuildError(items[k], port, mk)
  {
    if items == [] then Ok([])
    else if !Builds(items[0], port, mk) then Raise(BuildError(items[0], port, mk))
    else
      var rest := BuildAll(items[1..], port, mk);
      assert forall i | 1 <= i < |items| :: items[i] == items[1..][i - 1];
      match rest
      case Raise(e) =>
        var k :| 0 <= k < |items[1..]| && (forall i | 0 <= i < k :: Builds(items[1..][i], port, mk))
                 && !Builds(items[1..][k], port, mk) && e == BuildError(items[1..][k], port, mk);
        assert forall i | 0 <= i < k + 1 :: Builds(items[i], port, mk);
        Raise(e)
      case Ok(built) => Ok([mk(items[0].s, port).value] + built)
  }

  /** The loop of `_make_a_records` over a dictionary's items, with `make` building
      the record of one item: the records in order, or the first `None` or
      exception. */
  function CollectAll<X, T>(items: seq<X>, make: X -> Result<Option<T>>): (r: Result<Option<seq<T>>>)
    ensures (r.Ok? && r.value.Some?) <==> forall i | 0 <= i < |items| :: make(items[i]).Ok? && make(items[i]).value.Some?
    ensures r.Ok? && r.value.Some? ==>
              |r.value.value| == |items| && forall i | 0 <= i < |items| :: make(items[i]) == Ok(Some(r.value.value[i]))
    ensures r.Raise? ==> exists k | 0 <= k < |items| :: make(items[k]) == Raise(r.error)
  {
    if items == [] then Ok(Some([]))
    else
      var first := make(items[0]);
      var rest := CollectAll(items[1..], make);
      assert forall i | 1 <= i < |items| :: items[i] == items[1..][i - 1];
      if first.Raise? then Raise(first.error)
      else if first.value.None? then Ok(None)
      else if rest.Raise? then
        var k :| 0 <= k < |items[1..]| && make(items[1..][k]) == Raise(rest.error);
        assert make(items[k + 1]) == Raise(rest.error);
        Raise(rest.error)
      else if rest.value.None? then Ok(None)
      else Ok(Some([first.value.value] + rest.value.value))
  }

  /** The first item that gives no record decides what the loop gives. */
  lemma {:induction false} CollectAllFirstFailure<X, T>(items: seq<X>, make: X -> Result<Option<T>>, k: nat)
    requires k < |items| && !(make(items[k]).Ok? && make(items[k]).value.Some?)
    requires forall i | 0 <= i < k :: make(items[i]).Ok? && make(items[i]).value.Some?
    ensures CollectAll(items, make) == if make(items[k]).Raise? then Raise(make(items[k]).error) else Ok(None)
    decreases k
  {
    if k > 0 {
      assert forall i | 1 <= i < |items| :: items[i] == items[1..][i - 1];
      CollectAllFirstFailure(items[1..], make, k - 1);
    }
  }

  /** The loop itself: each item in turn, leaving at the first `None` or exception. */
  method CollectLoop<X, T>(items: seq<X>, make: X -> Result<Option<T>>) returns (r: Result<Option<seq<T>>>)
    ensures r == CollectAll(items, make)
  {
    var built: seq<T> := [];
    var i := 0;
    while i < |items|
      invariant 0 <= i <= |items| && |built| == i
      invariant forall j | 0 <= j < i :: make(items[j]) == Ok(Some(built[j]))
    {
      var one := make(items[i]);
      if one.Raise? || one.value.None? {
        CollectAllFirstFailure(items, make, i);
        if one.Raise? {
          return Raise(one.error);
        }
        return Ok(None);
      }
      built := built + [one.value.value];
      i := i + 1;
    }
    assert built == CollectAll(items, make).value.value;
    return Ok(Some(built));
  }
  /** The checks `_make_healthy_a_record` makes on the entry itself, in order: a
      dictionary, a non-empty list under `ips`, an integer under `health_port`.
      It gives the list and the port. A missing key raises `KeyError`; the port
      is looked up only once the list has passed. */
  function ParseSubConfig(subConfig: Json): (r: Result<Option<(seq<Json>, int)>>)
    ensures !subConfig.JObject? ==> r == Ok(None)
    ensures r.Raise? ==> r.error == KeyError
    ensures subConfig.JObject? ==>
              var ips := Get(subConfig.members, ArgSubdomainIpList);
              var port := Get(subConfig.members, ArgSubdomainHealthPort);
              (r.Raise? <==> ips.Raise? || (ips.value.JArray? && ips.value.items != [] && port.Raise?))
              && ((r.Ok? && r.value.Some?)
                  <==> ips.Ok? && ips.value.JArray? && ips.value.items != [] && port.Ok? && IsInt(port.value))
              && (r.Ok? && r.value.Some? ==> r.value.value == (ips.value.items, IntValue(port.value)))
  {
    if !subConfig.JObject? then Ok(None)
    else
      match Get(subConfig.members, ArgSubdomainIpList)
      case Raise(e) => Raise(e)
      case Ok(ipList) =>
        if !ipList.JArray? || ipList.items == [] then Ok(None)
        else
          match Get(subConfig.members, ArgSubdomainHealthPort)
          case Raise(e) => Raise(e)
          case Ok(healthPort) =>
            if !IsInt(healthPort) then Ok(None)
            else Ok(Some((ipList.items, IntValue(healthPort))))
  }

  /** Building addresses raises either the constructor's `ValueError` or, for an
      entry that is not a string, `AttributeError`. */
  lemma BuildAllErrors<T>(items: seq<Json>, port: int, mk: (string, int) -> Result<T>)
    requires forall ip, p :: mk(ip, p).Raise? ==> mk(ip, p).error.ValueError?
    ensures BuildAll(items, port, mk).Raise? ==>
              BuildAll(items, port, mk).error == AttributeError || BuildAll(items, port, mk).error.ValueError?
  {
    if BuildAll(items, port, mk).Raise? {
      var k :| 0 <= k < |items| && !Builds(items[k], port, mk)
               && BuildAll(items, port, mk).error == BuildError(items[k], port, mk);
    }
  }

  /** The loop's outcome with the records collected into a set. */
  function AsSet<T>(r: Result<Option<seq<T>>>): (s: Result<Option<set<T>>>)
    ensures s.Ok? <==> r.Ok?
    ensures s.Raise? ==> s.error == r.error
    ensures s.Ok? ==> (s.value.Some? <==> r.value.Some?)
    ensures s.Ok? && s.value.Some? ==>
              (forall x | x in s.value.value :: x in r.value.value)
              && forall i | 0 <= i < |r.value.value| :: r.value.value[i] in s.value.value
  {
    match r
    case Raise(e) => Raise(e)
    case Ok(None) => Ok(None)
    case Ok(Some(xs)) => Ok(Some(set x | x in xs))
  }

  /** The loop with the records added to a set as they are built. */
  method CollectSetLoop<X, T>(items: seq<X>, make: X -> Result<Option<T>>) returns (r: Result<Option<set<T>>>)
    ensures r == AsSet(CollectAll(items, make))
  {
    var built: set<T> := {};
    var i := 0;
    while i < |items|
      invariant 0 <= i <= |items|
      invariant forall j | 0 <= j < i :: make(items[j]).Ok? && make(items[j]).value.Some?
      invariant built == set j | 0 <= j < i :: make(items[j]).value.value
    {
      var one := make(items[i]);
      if one.Raise? || one.value.None? {
        CollectAllFirstFailure(items, make, i);
        if one.Raise? {
          return Raise(one.error);
        }
        return Ok(None);
      }
      built := built + {one.value.value};
      i := i + 1;
    }
    var all := CollectAll(items, make).value.value;
    assert built == set x | x in all by {
      forall x | x in all ensures x in built {
        var j :| 0 <= j < |all| && all[j] == x;
        assert make(items[j]).value.value == x;
      }
    }
    return Ok(Some(built));
  }
}
