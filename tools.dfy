/** The string validators and normalisers every constructor relies on
    (`tools/`): dotted-quad IPv4 literals, ports, DNS labels, leading-zero
    normalisation and the 32-bit bound on a clock reading. */
module Tools {
  import opened Wrappers
  import opened Text

  /** The `(ok, message)` pair every validator returns. */
  datatype Validation = Validation(success: bool, error: string)

  const Accepted := Validation(true, "")

  const OctetCountError := "IP address must have 4 octets"
  const OctetValueError := "Each octet must be a number between 0 and 255"
  const PortRangeError := "Port must be between 1 and 65535"
  const EmptyNameError := "It cannot be empty"
  const LabelError := "Labels must contain only alphanumeric characters or hyphens"

  const MaxUint32: int := 0x1_0000_0000 - 1

  // ----- is_valid_ip ------------------------------------------------------

  /** `part.isdigit() and 0 <= int(part) <= 255`. */
  predicate IsOctet(part: string)
  {
    part != [] && AllDigits(part) && DigitsValue(part) <= 255
  }

  /** Four octets, the shape a valid address is made of. */
  predicate DottedQuad(octets: seq<string>)
  {
    |octets| == 4 && forall i | 0 <= i < |octets| :: IsOctet(octets[i])
  }

  function IsValidIp(ip: string): (v: Validation)
    ensures v.success <==> v == Accepted
    ensures !v.success ==> v.error in {OctetCountError, OctetValueError}
  {
    var parts := Split(ip, '.');
    if |parts| != 4 then Validation(false, OctetCountError)
    else if !(forall i | 0 <= i < |parts| :: IsOctet(parts[i])) then Validation(false, OctetValueError)
    else Accepted
  }

  lemma OctetHasNoDot(part: string)
    requires IsOctet(part)
    ensures '.' !in part
  {
    forall k | 0 <= k < |part| ensures part[k] != '.' {
      assert IsDigit(part[k]);
    }
  }

  /** An address is accepted exactly when it is four octets joined by dots. */
  lemma {:induction false} IpValidIffDottedQuad(ip: string)
    ensures IsValidIp(ip).success <==> exists octets :: DottedQuad(octets) && Join(octets, '.') == ip
  {
    if IsValidIp(ip).success {
      JoinSplit(ip, '.');
      assert DottedQuad(Split(ip, '.'));
    }
    if exists octets :: DottedQuad(octets) && Join(octets, '.') == ip {
      var octets :| DottedQuad(octets) && Join(octets, '.') == ip;
      forall i | 0 <= i < |octets| ensures '.' !in octets[i] { OctetHasNoDot(octets[i]); }
      SplitJoin(octets, '.');
    }
  }

  /** The octet count is checked first: any number of dots other than three,
      the empty string included, gives the count error whatever the octets are. */
  lemma {:induction false} IpCountErrorIff(ip: string)
    ensures IsValidIp(ip) == Validation(false, OctetCountError) <==> Count(ip, '.') != 3
  {
    SplitLength(ip, '.');
  }

  /** Four dot-free pieces give the octet error exactly when one of them is not an octet. */
  lemma {:induction false} IpOctetErrorIff(a: string, b: string, c: string, d: string)
    requires '.' !in a && '.' !in b && '.' !in c && '.' !in d
    ensures IsValidIp(a + "." + b + "." + c + "." + d) == Validation(false, OctetValueError)
        <==> !(IsOctet(a) && IsOctet(b) && IsOctet(c) && IsOctet(d))
  {
    var parts := [a, b, c, d];
    SplitFour(a, b, c, d);
    assert (forall i | 0 <= i < |parts| :: IsOctet(parts[i]))
        <==> IsOctet(a) && IsOctet(b) && IsOctet(c) && IsOctet(d) by {
      assert parts[0] == a && parts[1] == b && parts[2] == c && parts[3] == d;
    }
  }

  /** Four dot-free pieces joined by dots split back into those pieces. */
  lemma SplitFour(a: string, b: string, c: string, d: string)
    requires '.' !in a && '.' !in b && '.' !in c && '.' !in d
    ensures Split(a + "." + b + "." + c + "." + d, '.') == [a, b, c, d]
  {
    var parts := [a, b, c, d];
    assert Join(parts, '.') == a + "." + b + "." + c + "." + d by {
      assert Join(parts[3..], '.') == d;
      assert Join(parts[2..], '.') == c + "." + d;
      assert Join(parts[1..], '.') == b + "." + c + "." + d;
    }
    SplitJoin(parts, '.');
  }

  /** Octets with leading zeros are accepted, as in `0192.0168.001.001`. */
  lemma LeadingZerosAccepted()
    ensures IsValidIp("0192.0168.001.001") == Accepted
  {
    var octets := ["0192", "0168", "001", "001"];
    LeadingZeroOctets();
    SplitFour("0192", "0168", "001", "001");
    assert "0192" + "." + "0168" + "." + "001" + "." + "001" == "0192.0168.001.001";
    assert forall i | 0 <= i < |octets| :: IsOctet(octets[i]);
  }

  /** The digits after leading zeros give the octet's value. */
  lemma LeadingZeroOctets()
    ensures IsOctet("0192") && DigitsValue("0192") == 192
    ensures IsOctet("0168") && DigitsValue("0168") == 168
    ensures IsOctet("001") && DigitsValue("001") == 1
  {
    assert DigitsValue("0192") == 192 by {
      assert "0192"[..3] == "019" && "019"[..2] == "01" && "01"[..1] == "0";
    }
    assert DigitsValue("0168") == 168 by {
      assert "0168"[..3] == "016" && "016"[..2] == "01" && "01"[..1] == "0";
    }
    assert DigitsValue("001") == 1 by {
      assert "001"[..2] == "00" && "00"[..1] == "0";
    }
  }

  /** An accepted address holds nothing but digits and dots. */
  lemma {:induction false} ValidIpCharacters(ip: string)
    requires IsValidIp(ip).success
    ensures forall k | 0 <= k < |ip| :: IsDigit(ip[k]) || ip[k] == '.'
  {
    var parts := Split(ip, '.');
    forall k | 0 <= k < |ip| && ip[k] != '.' ensures IsDigit(ip[k]) {
      SplitKeepsCharacters(ip, '.', k);
      var i, j :| 0 <= i < |parts| && 0 <= j < |parts[i]| && parts[i][j] == ip[k];
      assert IsOctet(parts[i]);
    }
  }

  /** The characters `str.split()` treats as whitespace, restricted to ASCII. */
  predicate IsWhitespace(c: char) { c == ' ' || '\t' <= c <= '\r' }

  /** Whitespace anywhere in an address, leading, trailing or inside, rejects it. */
  lemma WhitespaceRejected(ip: string, k: nat)
    requires k < |ip| && IsWhitespace(ip[k])
    ensures !IsValidIp(ip).success
  {
    if IsValidIp(ip).success {
      ValidIpCharacters(ip);
    }
  }

  // ----- is_valid_port ----------------------------------------------------

  function IsValidPort(port: int): (v: Validation)
    ensures v.success <==> 1 <= port <= 65535
    ensures v.success <==> v == Accepted
    ensures !v.success ==> v.error == PortRangeError
  {
    if !(1 <= port <= 65535) then Validation(false, PortRangeError) else Accepted
  }

  // ----- is_valid_subdomain -----------------------------------------------

  /** A non-empty run of ASCII letters, digits and hyphens. */
  predicate IsLabel(part: string)
  {
    part != [] && forall i | 0 <= i < |part| :: IsAlnum(part[i]) || part[i] == '-'
  }

  function IsValidSubdomain(name: string): (v: Validation)
    ensures v.success <==> v == Accepted
    ensures name == [] ==> v == Validation(false, EmptyNameError)
    ensures name != [] && !v.success ==> v.error == LabelError
  {
    if name == [] then Validation(false, EmptyNameError)
    else
      var labels := Split(name, '.');
      if !(forall i | 0 <= i < |labels| :: IsLabel(labels[i])) then Validation(false, LabelError)
      else Accepted
  }

  predicate AllLabels(labels: seq<string>)
  {
    forall i | 0 <= i < |labels| :: IsLabel(labels[i])
  }

  lemma LabelHasNoDot(part: string)
    requires IsLabel(part)
    ensures '.' !in part
  {
    forall k | 0 <= k < |part| ensures part[k] != '.' {
      assert IsAlnum(part[k]) || part[k] == '-';
    }
  }

  /** A name is accepted exactly when it is one or more labels joined by dots. */
  lemma {:induction false} SubdomainIffLabels(name: string)
    ensures IsValidSubdomain(name).success
        <==> exists labels :: |labels| >= 1 && AllLabels(labels) && Join(labels, '.') == name
  {
    if IsValidSubdomain(name).success {
      JoinSplit(name, '.');
      assert AllLabels(Split(name, '.'));
    }
    if exists labels :: |labels| >= 1 && AllLabels(labels) && Join(labels, '.') == name {
      var labels :| |labels| >= 1 && AllLabels(labels) && Join(labels, '.') == name;
      forall i | 0 <= i < |labels| ensures '.' !in labels[i] { LabelHasNoDot(labels[i]); }
      SplitJoin(labels, '.');
      assert |Join(labels, '.')| >= |labels[0]| > 0;
    }
  }

  /** A leading, trailing or doubled dot leaves an empty label and gives the label error. */
  lemma {:induction false} EmptyLabelRejected(name: string)
    requires name != []
    requires name[0] == '.' || name[|name| - 1] == '.'
             || exists k :: 0 <= k < |name| - 1 && name[k] == '.' && name[k + 1] == '.'
    ensures IsValidSubdomain(name) == Validation(false, LabelError)
  {
    var labels := Split(name, '.');
    if name[0] == '.' {
      assert labels[0] == "";
    } else if name[|name| - 1] == '.' {
      assert name == name[..|name| - 1] + ['.'] + [];
      SplitConcat(name[..|name| - 1], '.', []);
      assert labels[|labels| - 1] == "";
    } else {
      var k :| 0 <= k < |name| - 1 && name[k] == '.' && name[k + 1] == '.';
      var front, back := name[..k], name[k + 2..];
      assert name == front + ['.'] + (['.'] + back);
      SplitConcat(front, '.', ['.'] + back);
      assert Split(['.'] + back, '.')[0] == "" by {
        assert (['.'] + back)[1..] == back;
      }
      assert labels[|Split(front, '.')|] == "";
    }
  }

  /** A character other than a letter, digit, hyphen or dot gives the label error. */
  lemma {:induction false} BadCharacterRejected(name: string, k: nat)
    requires k < |name|
    requires !IsAlnum(name[k]) && name[k] != '-' && name[k] != '.'
    ensures IsValidSubdomain(name) == Validation(false, LabelError)
  {
    var labels := Split(name, '.');
    SplitKeepsCharacters(name, '.', k);
    var i, j :| 0 <= i < |labels| && 0 <= j < |labels[i]| && labels[i][j] == name[k];
    assert !IsLabel(labels[i]);
  }

  // ----- normalize_ip -----------------------------------------------------

  /** `octet.lstrip("0") or "0"`: the octet without its leading zeros, or `0` when nothing else is left. */
  function NormalizeOctet(octet: string): (r: string)
    ensures r != [] && (r == "0" || r[0] != '0')
    ensures r == "0" || (|r| <= |octet| && r == octet[|octet| - |r|..])
  {
    var stripped := LStrip(octet, '0');
    if stripped == [] then "0" else stripped
  }

  lemma NormalizeOctetNoDot(octet: string)
    requires '.' !in octet
    ensures '.' !in NormalizeOctet(octet)
  {
    var r := NormalizeOctet(octet);
    if r != "0" {
      assert forall k | 0 <= k < |r| :: r[k] == octet[|octet| - |r| + k];
    }
  }

  /** A digit-only octet keeps its numeric value. */
  lemma {:induction false} NormalizeOctetValue(octet: string)
    requires AllDigits(octet)
    ensures AllDigits(NormalizeOctet(octet)) && DigitsValue(NormalizeOctet(octet)) == DigitsValue(octet)
  {
    LStripZerosValue(octet);
    var stripped := LStrip(octet, '0');
    if stripped == [] {
      assert DigitsValue(octet) == 0;
      assert DigitsValue("0") == DigitsValue([]) * 10 + DigitValue('0') by { assert "0"[..0] == []; }
    }
  }

  /** A part that normalisation leaves alone: `0`, or non-empty without a leading zero. */
  predicate IsNormalOctet(octet: string)
  {
    octet == "0" || (octet != [] && octet[0] != '0')
  }

  function NormalizeParts(parts: seq<string>): (r: seq<string>)
    ensures |r| == |parts|
    ensures forall i | 0 <= i < |parts| :: r[i] == NormalizeOctet(parts[i])
  {
    seq(|parts|, i requires 0 <= i < |parts| => NormalizeOctet(parts[i]))
  }

  function NormalizeIp(ip: string): string
  {
    Join(NormalizeParts(Split(ip, '.')), '.')
  }

  /** Normalisation keeps the number of parts, and each part is its input part normalised. */
  lemma {:induction false} NormalizeIpParts(ip: string)
    ensures Split(NormalizeIp(ip), '.') == NormalizeParts(Split(ip, '.'))
    ensures |Split(NormalizeIp(ip), '.')| == |Split(ip, '.')|
  {
    var parts := Split(ip, '.');
    forall i | 0 <= i < |parts| ensures '.' !in NormalizeParts(parts)[i] {
      NormalizeOctetNoDot(parts[i]);
    }
    SplitJoin(NormalizeParts(parts), '.');
  }

  lemma NormalizeNormalOctet(octet: string)
    requires IsNormalOctet(octet)
    ensures NormalizeOctet(octet) == octet
  {
  }

  /** An address whose parts hold no leading zeros comes back unchanged. */
  lemma {:induction false} NormalizeUnchanged(ip: string)
    requires forall i | 0 <= i < |Split(ip, '.')| :: IsNormalOctet(Split(ip, '.')[i])
    ensures NormalizeIp(ip) == ip
  {
    var parts := Split(ip, '.');
    forall i | 0 <= i < |parts| ensures NormalizeParts(parts)[i] == parts[i] {
      NormalizeNormalOctet(parts[i]);
    }
    assert NormalizeParts(parts) == parts;
    JoinSplit(ip, '.');
  }

  /** Normalising twice is normalising once. */
  lemma {:induction false} NormalizeIdempotent(ip: string)
    ensures NormalizeIp(NormalizeIp(ip)) == NormalizeIp(ip)
  {
    NormalizeIpParts(ip);
    NormalizeUnchanged(NormalizeIp(ip));
  }

  /** Every digit-only part keeps its numeric value. */
  lemma {:induction false} NormalizeKeepsValues(ip: string, i: nat)
    requires i < |Split(ip, '.')| && AllDigits(Split(ip, '.')[i])
    ensures i < |Split(NormalizeIp(ip), '.')|
    ensures AllDigits(Split(NormalizeIp(ip), '.')[i])
    ensures DigitsValue(Split(NormalizeIp(ip), '.')[i]) == DigitsValue(Split(ip, '.')[i])
  {
    NormalizeIpParts(ip);
    NormalizeOctetValue(Split(ip, '.')[i]);
  }

  /** The normal form of an accepted address is accepted. */
  lemma {:induction false} NormalizeKeepsValid(ip: string)
    requires IsValidIp(ip).success
    ensures IsValidIp(NormalizeIp(ip)).success
  {
    NormalizeIpParts(ip);
    var parts := Split(ip, '.');
    var normal := Split(NormalizeIp(ip), '.');
    forall i | 0 <= i < |normal| ensures IsOctet(normal[i]) {
      assert IsOctet(parts[i]);
      NormalizeOctetValue(parts[i]);
    }
  }

  // ----- uint32_current_time ----------------------------------------------

  /** The clock reading, in whole seconds, checked against the 32-bit unsigned bound. */
  function Uint32CurrentTime(clock: int): (r: Result<int>)
    ensures clock <= MaxUint32 ==> r == Ok(clock)
    ensures clock > MaxUint32 ==> r.Raise? && r.error.OverflowError?
    ensures clock >= 0 && r.Ok? ==> 0 <= r.value < 0x1_0000_0000
  {
    if clock > MaxUint32 then
      Raise(OverflowError("Current timestamp " + DecimalString(clock)
                          + " exceeds 32-bit unsigned integer limit (" + DecimalString(MaxUint32) + ")"))
    else Ok(clock)
  }
}
