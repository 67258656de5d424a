/** How dnspython reads record data from text (`dns.rdata.from_text`, reached
    through `dns.rdataset.from_text` and `dns.rrset.from_text`) for the three
    record types the server writes as text: A, NS and SOA. Every failure there
    surfaces as dnspython's `SyntaxError`: `BadTTL` is a kind of it, and the
    name errors raised while a name is read are re-raised as it. Each field is
    one word of the zone-file syntax; a field holding a character the tokenizer
    gives a meaning of its own is rejected outright. */
module RdataText {
  import opened Wrappers
  import opened Text
  import opened Tools
  import opened Names

  // ----- names ---------------------------------------------------------------

  /** A character the tokenizer keeps inside a word: printable ASCII other than
      the quote, the parentheses, the semicolon and the backslash. */
  predicate OrdinaryChar(c: char)
  {
    '!' <= c <= '~' && c != '"' && c != '(' && c != ')' && c != ';' && c != '\\'
  }

  /** One field of record text: a non-empty word of ordinary characters. */
  predicate IsWord(text: string)
  {
    text != [] && forall i | 0 <= i < |text| :: OrdinaryChar(text[i])
  }

  /** The labels of a word, and whether a trailing dot makes it absolute. */
  function WordName(text: string): Name
  {
    var parts := Split(text, '.');
    if parts[|parts| - 1] == [] then Name(parts[..|parts| - 1], true) else Name(parts, false)
  }

  /** `tok.get_name()` with no origin: `@` is the empty relative name and `.` the
      root; any other word gives its dot-separated labels, absolute when it ends
      in a dot. A field that is not a word, an empty label, a label over 63 octets
      and a name over 255 octets all raise `SyntaxError`. */
  function RdataName(text: string): (r: Result<Name>)
    ensures r.Raise? ==> r.error == SyntaxError
    ensures r.Ok? ==> IsWord(text) && Fits(r.value) && WellFormed(r.value)
  {
    if !IsWord(text) then Raise(SyntaxError)
    else if text == "@" then Ok(Empty)
    else if text == "." then Ok(Root)
    else
      var n := WordName(text);
      if exists i | 0 <= i < |n.labels| :: n.labels[i] == [] then Raise(SyntaxError)
      else if !Fits(n) then Raise(SyntaxError)
      else Ok(n)
  }

  /** A validated name with a dot appended reads as the absolute name `from_text`
      makes of the bare name, and fails exactly where `from_text` raises
      `LabelTooLong` or `NameTooLong`. */
  lemma {:induction false} AbsoluteNameText(name: string)
    requires IsValidSubdomain(name).success
    ensures RdataName(name + ".").Ok? <==> FromText(name, Root).Ok?
    ensures RdataName(name + ".").Ok? ==> RdataName(name + ".").value == FromText(name, Root).value
  {
    var text := name + ".";
    var labels := Split(name, '.');
    assert AllLabels(labels);
    SplitConcat(name, '.', []);
    assert text == name + ['.'] + [];
    assert Split(text, '.') == labels + [""];
    assert WordName(text) == Name(labels, true) by {
      assert (labels + [""])[..|labels|] == labels;
    }
    forall i | 0 <= i < |text| ensures OrdinaryChar(text[i]) {
      if i < |name| && name[i] != '.' {
        SplitKeepsCharacters(name, '.', i);
        var p, q :| 0 <= p < |labels| && 0 <= q < |labels[p]| && labels[p][q] == name[i];
        assert IsLabel(labels[p]);
      }
    }
    assert |text| >= 2;
    assert IsWord(text) && text != "@" && text != ".";
    assert forall i | 0 <= i < |labels| :: labels[i] != [];
    assert labels + Root.labels == labels;
    var n := Name(labels, true);
    assert FromText(name, Root) == (if !LabelsFit(labels) then Raise(LabelTooLong)
                                    else if WireLength(n) > MaxNameLength then Raise(NameTooLong) else Ok(n));
    assert RdataName(text) == (if Fits(n) then Ok(n) else Raise(SyntaxError));
  }

  /** A 64-octet label in a name-server name that passes the subdomain check
      makes the record text fail. */
  lemma LongNameServerRejected()
    ensures IsValidSubdomain(seq(64, _ => 'a') + ".com").success
    ensures RdataName(seq(64, _ => 'a') + ".com" + ".").Raise?
  {
    var long := seq(64, _ => 'a');
    var name := long + ".com";
    SplitConcat(long, '.', "com");
    assert name == long + ['.'] + "com";
    SplitNoSeparator(long, '.');
    SplitNoSeparator("com", '.');
    assert Split(name, '.') == [long, "com"];
    assert IsLabel(long) && IsLabel("com");
    LongLabelRejected();
    AbsoluteNameText(name);
  }

  // ----- addresses -----------------------------------------------------------

  /** `dns.ipv4.inet_aton`, which the A record's parser applies: four
      dot-separated ASCII decimal octets of at most 255, none written with a
      leading zero. */
  predicate IsAddressText(ip: string)
  {
    IsValidIp(ip).success && forall i | 0 <= i < |Split(ip, '.')| :: IsNormalOctet(Split(ip, '.')[i])
  }

  /** The A parser accepts exactly the valid addresses that normalisation leaves unchanged. */
  lemma {:induction false} AddressTextIff(ip: string)
    ensures IsAddressText(ip) <==> IsValidIp(ip).success && NormalizeIp(ip) == ip
  {
    if IsAddressText(ip) {
      NormalizeUnchanged(ip);
    }
    if IsValidIp(ip).success && NormalizeIp(ip) == ip {
      NormalizeIpParts(ip);
      var parts := Split(ip, '.');
      forall i | 0 <= i < |parts| ensures IsNormalOctet(parts[i]) {
        assert parts[i] == NormalizeParts(parts)[i] == NormalizeOctet(parts[i]);
      }
    }
  }

  /** Every valid address, once normalised, is accepted by the A parser. */
  lemma NormalizedAddressParses(ip: string)
    requires IsValidIp(ip).success
    ensures IsAddressText(NormalizeIp(ip))
  {
    NormalizeKeepsValid(ip);
    NormalizeIdempotent(ip);
    AddressTextIff(NormalizeIp(ip));
  }

  /** An address with an octet written with a leading zero, such as
      `192.168.001.001`, passes the address check but not the A parser. */
  lemma LeadingZeroAddressRejected(a: string, b: string, c: string, d: string)
    requires IsOctet(a) && IsOctet(b) && IsOctet(c) && IsOctet(d)
    requires !(IsNormalOctet(a) && IsNormalOctet(b) && IsNormalOctet(c) && IsNormalOctet(d))
    ensures IsValidIp(a + "." + b + "." + c + "." + d).success
    ensures !IsAddressText(a + "." + b + "." + c + "." + d)
  {
    OctetHasNoDot(a);
    OctetHasNoDot(b);
    OctetHasNoDot(c);
    OctetHasNoDot(d);
    SplitFour(a, b, c, d);
    var parts := Split(a + "." + b + "." + c + "." + d, '.');
    assert parts[0] == a && parts[1] == b && parts[2] == c && parts[3] == d;
  }

  // ----- SOA fields ----------------------------------------------------------

  /** A numeric SOA field: the serial (`get_uint32`) and the four timers
      (`get_ttl`, whose bound is also 2^32-1); the text of a negative number is
      rejected by both. */
  predicate IsUint32(v: int)
  {
    0 <= v <= MaxUint32
  }

  /** The SOA record read from `mname rname serial refresh retry expire minimum`. */
  predicate SoaParses(mname: string, rname: string, serial: int, refresh: int, retry: int, expire: int,
                      minimum: int)
  {
    RdataName(mname).Ok? && RdataName(rname).Ok?
    && IsUint32(serial) && IsUint32(refresh) && IsUint32(retry) && IsUint32(expire) && IsUint32(minimum)
  }

  /** `hostmaster.` in front of a validated zone's absolute text reads as a name
      exactly when the zone's text leaves room for the 11 extra octets. */
  lemma {:induction false} HostmasterFits(zone: string)
    requires IsValidSubdomain(zone).success && FromText(zone, Root).Ok?
    ensures ToText(FromText(zone, Root).value) == zone + "."
    ensures RdataName("hostmaster." + ToText(FromText(zone, Root).value)).Ok? <==> |zone| <= 242
  {
    var labels := Split(zone, '.');
    var mailbox := "hostmaster." + zone;
    assert labels + Root.labels == labels;
    JoinSplit(zone, '.');
    assert ToText(FromText(zone, Root).value) == zone + ".";
    assert IsLabel("hostmaster");
    PrefixLabel("hostmaster", zone);
    assert mailbox == "hostmaster" + "." + zone;
    AbsoluteNameText(mailbox);
    FromTextIff(zone, Root);
    FromTextIff(mailbox, Root);
    LabelsFitConcat(["hostmaster"], labels);
    assert LabelsFit(["hostmaster"]);
    assert "hostmaster." + (zone + ".") == mailbox + ".";
  }

  /** `hostmaster.` in front of a validated name, with a dot appended, reads as a
      name exactly when `from_text` makes one of the bare mailbox name. */
  lemma HostmasterText(zone: string)
    requires IsValidSubdomain(zone).success
    ensures RdataName("hostmaster." + zone + ".").Ok? <==> FromText("hostmaster." + zone, Root).Ok?
  {
    var mailbox := "hostmaster." + zone;
    assert IsLabel("hostmaster");
    PrefixLabel("hostmaster", zone);
    assert mailbox == "hostmaster" + "." + zone;
    AbsoluteNameText(mailbox);
  }

  /** A label in front of a validated name gives a validated name with one more label. */
  lemma {:induction false} PrefixLabel(first: string, zone: string)
    requires IsLabel(first) && IsValidSubdomain(zone).success
    ensures Split(first + "." + zone, '.') == [first] + Split(zone, '.')
    ensures IsValidSubdomain(first + "." + zone).success
  {
    var labels := Split(zone, '.');
    assert first + "." + zone == first + ['.'] + zone;
    SplitConcat(first, '.', zone);
    LabelHasNoDot(first);
    SplitNoSeparator(first, '.');
    assert AllLabels(labels);
    var all := [first] + labels;
    forall i | 0 <= i < |all| ensures IsLabel(all[i]) {
      if i > 0 {
        assert all[i] == labels[i - 1];
      }
    }
  }
}
