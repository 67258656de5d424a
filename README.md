# a-healthy-dns, modelled in Dafny

`a-healthy-dns` is an authoritative DNS server for one hosted zone. It can also serve alias zones. Its A records follow TCP health checks.

The server works in three stages:

1. A JSON configuration is validated into value objects: addresses with a health port, subdomain records, name servers, and an optional DNSSEC key.
2. An updater probes every address. After each pass it decides whether to rebuild the zone.
   - A rebuild clears the zone. It then adds the NS set, a fresh SOA and one A set per subdomain that has a healthy address, and signs the zone when a key is configured.
   - Every TTL, SOA timer and signature lifetime is derived from one `max_interval`.
3. A UDP handler answers each query from that zone. An older handler generation answers from configuration attributes instead of a zone.

This project models the sequential logic of all three stages. Each operation in Dafny keeps its source's form:

- **Validators, time policy and record builders** are functions over values.
- **Value objects** (`AHealthyIp`, `HealthyIp`, `AHealthyRecord`, `HealthyARecord`, `CheckableIp`, `CheckableIps`) are datatypes. Their constructors return `Result`, so a Python `ValueError` is the `Raise` case.
- **Loops** in the source become methods with loop invariants, each proved equal to a specification function. These include:
  - the octet loop of `CheckableIp._is_valid_ip`;
  - the factories' dictionary and list loops;
  - `DNSServerConfig.__init__`;
  - the updater's probe, clear and add loops;
  - the handlers' answer building.
- **Stateful objects** are classes with `modifies` clauses: the SOA generators, the DNS message being answered, and `DnsServerZoneUpdater`.
- **Outside effects** are parameters:
  - the clock is an integer;
  - the TCP probe is a `(ip, port) -> bool` oracle;
  - the abort callback is a `nat -> bool` oracle, asked before each probe and indexed by the probe call;
  - a datagram is given as its parse outcome;
  - decoded JSON is a datatype.
- **dnspython** is a small library of its own (modules `Names`, `Dns` and `RdataText`):
  - a name is a label sequence with an absolute flag;
  - a zone is a map from relative names to nodes;
  - a node is a map from record types to rdatasets;
  - an rdataset is a class, a type, a TTL and a set of records;
  - record text (`dns.rdataset.from_text`, `dns.rrset.from_text`) either reads or raises `SyntaxError`, for a name that does not read, an address `inet_aton` refuses, or a SOA number over 32 bits.

Module map (one Dafny file per source file, plus the shared modules):

| Dafny module | source |
|---|---|
| `Wrappers`, `Text`, `Names`, `Dns`, `RdataText`, `Json` | Python and dnspython behaviour the core relies on |
| `Tools` | `tools/*.py` |
| `Time` | `records/time.py` |
| `AHealthyIps`, `AHealthyRecords`, `ARecords`, `NsRecords`, `SoaRecords`, `Dnssec`, `ZoneOrigins` | `records/*.py` |
| `HealthyIps`, `HealthyARecords`, `CheckableIp`, `CheckableIps` | the first-generation value objects |
| `ServerConfig` | `dns_server_config.py` |
| `FactoryCommon`, `ConfigFactory`, `ZoneFactory` | the two JSON factories |
| `ZoneUpdater` | `dns_server_zone_updater.py` |
| `ServerUdpHandler`, `UdpHandler` | the two query handlers |

All source paths below are relative to the repository root and start with `indisoluble/a_healthy_dns/`.

Behaviour worth noting, as the code has it:

- **A node found without the queried type** is answered NXDOMAIN (`dns_server_udp_handler.py:34-42`). The lemma is `ServerUdpHandler.MissesAreNxdomain`.
- **A datagram that is itself a response** (QR set) makes `dns.message.make_response` raise `FormError`, which `handle` does not catch, so nothing is sent. Both handlers model this.
- **A name too long for DNS** raises dnspython's `LabelTooLong` (a label over 63 octets) or `NameTooLong` (over 255 octets in wire form) from `dns.name.from_text`, after the subdomain check has passed. Nothing in the factories or in `ZoneOrigins` catches these.
- **The configuration factory** builds `HealthyARecord` values with two of the three arguments the class takes, leaving `healthy_ips` missing. It also calls `.add` on a list. Both make it raise on valid input; see "## Findings".
- **`IsInt` accepts JSON booleans**, as Python's `isinstance(x, int)` does.
- **Record text that does not read raises `SyntaxError`**. dnspython re-raises every error met while reading record text as its `SyntaxError`. This covers `LabelTooLong` and `NameTooLong` in a name, an octet `inet_aton` refuses, and a SOA number above 2^32-1. No caller catches it:
  - `make_ns_record` raises it out of `DnsServerZoneUpdater.__init__` (`dns_server_zone_updater.py:93`);
  - `iter_soa_record` raises it out of `next()` and is then finished (`records/soa_record.py:67-69`);
  - `make_zone` raises it for a name server or a hosted zone too long once made absolute or prefixed with `hostmaster.` (`dns_server_zone_factory.py:191-195`, `230-247`);
  - the legacy handler raises it out of `handle`, so nothing is sent (`dns_udp_handler.py:20-22`, `32-38`, `50-66`).
- **`DNSServerConfig` accepts `192.168.001.001`**: its address check allows leading zeros. The legacy handler's A parser refuses such an address, so an A query for that name gets no reply (`RdataText.LeadingZeroAddressRejected`, `UdpHandler.ConfiguredAddressesAnswered`).
- **`CheckableIps` keeps its addresses as given**: `checkable_ips.py:22-28` stores them verbatim and in order. `tests/indisoluble/a_healthy_dns/test_checkable_ips.py:8-44` expects them normalised, sorted and without duplicates. The model follows the code.

## Model

| member | source | states |
|---|---|---|
| Tools.IsValidIp | indisoluble/a_healthy_dns/tools/is_valid_ip.py:12-21 | success exactly for a dotted quad; otherwise one of the two error messages, and the empty message on success |
| Tools.IpValidIffDottedQuad | indisoluble/a_healthy_dns/tools/is_valid_ip.py:14-21 | `(True, "")` exactly when the text splits on '.' into 4 non-empty, all-digit parts of value 0..255 |
| Tools.IpCountErrorIff | indisoluble/a_healthy_dns/tools/is_valid_ip.py:14-16 | the octet-count error is reported exactly when the address does not have exactly three dots (4 parts) |
| Tools.IpOctetErrorIff | indisoluble/a_healthy_dns/tools/is_valid_ip.py:18-19 | with 4 parts, the octet error is reported exactly when some part is empty, holds a non-digit or exceeds 255 |
| Tools.SplitFour | indisoluble/a_healthy_dns/tools/is_valid_ip.py:14 | four dot-free parts joined by dots split back into exactly those four parts |
| Tools.LeadingZerosAccepted | indisoluble/a_healthy_dns/tools/is_valid_ip.py:18 | "0192.0168.001.001" is accepted |
| Tools.LeadingZeroOctets | indisoluble/a_healthy_dns/tools/is_valid_ip.py:18 | "0192", "0168" and "001" are valid octets with values 192, 168 and 1 |
| Tools.ValidIpCharacters | indisoluble/a_healthy_dns/tools/is_valid_ip.py:14-21 | a valid address holds only digits and dots |
| Tools.WhitespaceRejected | indisoluble/a_healthy_dns/tools/is_valid_ip.py:18 | any whitespace character anywhere makes the address invalid |
| Tools.OctetHasNoDot | indisoluble/a_healthy_dns/tools/is_valid_ip.py:18 | an octet never contains the separator |
| Tools.IsValidPort | indisoluble/a_healthy_dns/tools/is_valid_port.py:12-17 | success exactly for 1 <= port <= 65535, with the empty message; otherwise the range message |
| Tools.IsValidSubdomain | indisoluble/a_healthy_dns/tools/is_valid_subdomain.py:12-23 | the empty text gets "It cannot be empty", checked first; otherwise success exactly when every label is acceptable |
| Tools.SubdomainIffLabels | indisoluble/a_healthy_dns/tools/is_valid_subdomain.py:17-23 | a non-empty name is valid exactly when every '.'-label is non-empty and only alphanumerics or '-' |
| Tools.EmptyLabelRejected | indisoluble/a_healthy_dns/tools/is_valid_subdomain.py:17-21 | a leading, trailing or doubled dot gives the label error |
| Tools.BadCharacterRejected | indisoluble/a_healthy_dns/tools/is_valid_subdomain.py:17-21 | any character outside alphanumerics, '-' and '.' gives the label error |
| Tools.LabelHasNoDot | indisoluble/a_healthy_dns/tools/is_valid_subdomain.py:18 | labels never contain the separator |
| Tools.NormalizeOctet | indisoluble/a_healthy_dns/tools/normalize_ip.py:6 | never empty; either "0" or a suffix of the input that does not start with '0' |
| Tools.NormalizeOctetNoDot | indisoluble/a_healthy_dns/tools/normalize_ip.py:6 | normalising an octet adds no separator |
| Tools.NormalizeOctetValue | indisoluble/a_healthy_dns/tools/normalize_ip.py:6 | a digit-only octet keeps its numeric value, and the result is digit-only |
| Tools.NormalizeParts | indisoluble/a_healthy_dns/tools/normalize_ip.py:5-8 | one normalised part per input part, in order |
| Tools.NormalizeIpParts | indisoluble/a_healthy_dns/tools/normalize_ip.py:5-8 | the output has the same number of '.'-parts as the input, each the normalised input part |
| Tools.NormalizeNormalOctet | indisoluble/a_healthy_dns/tools/normalize_ip.py:6 | a part without leading zeros is left as it is |
| Tools.NormalizeUnchanged | indisoluble/a_healthy_dns/tools/normalize_ip.py:6 | an address whose parts have no leading zeros is returned unchanged |
| Tools.NormalizeIdempotent | indisoluble/a_healthy_dns/tools/normalize_ip.py:6 | normalising twice is normalising once |
| Tools.NormalizeKeepsValues | indisoluble/a_healthy_dns/tools/normalize_ip.py:6 | every digit-only part keeps its numeric value |
| Tools.NormalizeKeepsValid | indisoluble/a_healthy_dns/tools/normalize_ip.py:4-8 | a valid address stays valid once normalised |
| Tools.Uint32CurrentTime | indisoluble/a_healthy_dns/tools/uint32_current_time.py:12-23 | the clock reading itself when at most 2^32-1 (the maximum accepted), `OverflowError` above it; results of a non-negative clock lie in 0..2^32-1 |
| Text.Split | indisoluble/a_healthy_dns/tools/is_valid_ip.py:14 | `str.split(sep)`: never empty, and no piece contains the separator |
| Text.SplitLength | indisoluble/a_healthy_dns/tools/is_valid_ip.py:14-16 | the number of pieces is one more than the number of separators |
| Text.JoinSplit | indisoluble/a_healthy_dns/tools/normalize_ip.py:5-8 | joining the pieces back with the separator gives the original text |
| Text.SplitJoin | indisoluble/a_healthy_dns/tools/normalize_ip.py:5-8 | splitting a join of separator-free pieces gives the pieces back |
| Text.SplitKeepsCharacters | indisoluble/a_healthy_dns/tools/is_valid_ip.py:14-18 | every character of the text other than the separator lies in some piece |
| Text.LStrip | indisoluble/a_healthy_dns/tools/normalize_ip.py:6 | `lstrip(c)`: a suffix of the input that does not start with c, preceded only by c |
| Text.LStripZerosValue | indisoluble/a_healthy_dns/tools/normalize_ip.py:6 | stripping leading '0's from digits keeps their decimal value |
| Text.NatStringValue | indisoluble/a_healthy_dns/records/soa_record.py:60 | `str(n)` of a natural number is a digit string whose value is n |
| Text.StrLessIrreflexive | indisoluble/a_healthy_dns/records/zone_origins.py:35 | string order is irreflexive |
| Text.StrLessTransitive | indisoluble/a_healthy_dns/records/zone_origins.py:35 | string order is transitive |
| Text.StrLessTotal | indisoluble/a_healthy_dns/records/zone_origins.py:35 | two different strings are ordered one way or the other |
| Names.FromText | indisoluble/a_healthy_dns/records/zone_origins.py:17 | `dns.name.from_text(t, origin)`: the '.'-labels of t followed by the origin's labels, a name whose labels fit in 63 octets and whose wire form fits in 255; any error is `LabelTooLong` or `NameTooLong` |
| Names.FromTextIff | indisoluble/a_healthy_dns/records/zone_origins.py:17 | success exactly when every label of the text and origin fits in 63 octets and the text plus one octet fits beside the origin in 255; `LabelTooLong` exactly when some label is too long |
| Names.FromTextInjective | indisoluble/a_healthy_dns/dns_server_config_factory.py:60 | different texts read below the same origin give different names |
| Names.LongLabelRejected | indisoluble/a_healthy_dns/dns_server_config_factory.py:53-60 | a 64-character label below `com` raises `LabelTooLong` |
| Names.FromTextWellFormed | indisoluble/a_healthy_dns/records/zone_origins.py:12-17 | a text without empty labels under a well-formed origin gives a well-formed name, and its labels joined by dots give the text back |
| Names.Relativize | indisoluble/a_healthy_dns/records/zone_origins.py:46 | a name under the origin loses the origin's labels: the result is relative, and its labels followed by the origin's are the input's |
| Names.Derelativize | indisoluble/a_healthy_dns/dns_server_udp_handler.py:24-27 | a relative name placed under the origin: absolute like the origin and under it |
| Names.RelativizeRoundTrip | indisoluble/a_healthy_dns/records/zone_origins.py:46 | derelativizing the relativized name gives the input name back |
| Names.ToTextInjective | indisoluble/a_healthy_dns/dns_udp_handler.py:89 | two well-formed names with the same text are the same name |
| Json.Get | indisoluble/a_healthy_dns/dns_server_config_factory.py:70 | `d[key]`: a stored member's value under that key, `KeyError` exactly when no member has it |
| Json.GetFindsStored | indisoluble/a_healthy_dns/dns_server_config_factory.py:70-81 | with distinct keys, the lookup finds exactly the value stored under the key |
| Dns.ZoneName | indisoluble/a_healthy_dns/dns_server_zone_updater.py:129 | a relative name stays, an absolute name under the origin becomes relative, any other name raises |
| Dns.AddRdataset | indisoluble/a_healthy_dns/dns_server_zone_updater.py:129-140 | `txn.add`: the node under the name gains the type, merging the records into an existing set of that type; all other nodes and types stay |
| Dns.Message.MakeResponse | indisoluble/a_healthy_dns/dns_server_udp_handler.py:63 | `dns.message.make_response`: `FormError` exactly when the query has QR set; otherwise a new message with the query's id and question, QR without AA, the query's RD, NOERROR and no answer |
| Dns.Message.Init | indisoluble/a_healthy_dns/dns_server_udp_handler.py:63 | a new message holding `ResponseTo(query)` |
| Dns.Message.SetAuthoritative | indisoluble/a_healthy_dns/dns_server_udp_handler.py:64 | sets the AA flag and changes nothing else |
| Dns.Message.SetRcode | indisoluble/a_healthy_dns/dns_server_udp_handler.py:31 | sets the response code and changes nothing else |
| Dns.Message.AppendAnswer | indisoluble/a_healthy_dns/dns_server_udp_handler.py:49 | appends one RRset to the answer section and changes nothing else |
| RdataText.RdataName | indisoluble/a_healthy_dns/dns_server_zone_factory.py:191-195 | a name read from record text, or `SyntaxError`; one that reads is a word of ordinary characters, well formed and within 63 octets per label and 255 in all |
| RdataText.AbsoluteNameText | indisoluble/a_healthy_dns/dns_server_zone_factory.py:181-195 | a validated name with a dot appended reads as a name exactly when `from_text` makes one of it, and then as the same absolute name |
| RdataText.LongNameServerRejected | indisoluble/a_healthy_dns/dns_server_zone_factory.py:176-195 | a name server with a 64-octet label passes the subdomain check, yet its record text does not read |
| RdataText.AddressTextIff | indisoluble/a_healthy_dns/dns_udp_handler.py:18-22 | the A parser reads exactly the valid addresses that normalisation leaves unchanged |
| RdataText.NormalizedAddressParses | indisoluble/a_healthy_dns/records/a_record.py:25-31 | every valid address, normalised, is read by the A parser |
| RdataText.LeadingZeroAddressRejected | indisoluble/a_healthy_dns/dns_udp_handler.py:18-22 | an address with a leading-zero octet, such as `192.168.001.001`, passes the address check but not the A parser |
| RdataText.HostmasterFits | indisoluble/a_healthy_dns/dns_server_zone_factory.py:230-247 | for a validated zone that `from_text` reads, its absolute text is `zone + "."`, and `hostmaster.` in front of it reads exactly when the zone has at most 242 characters |
| RdataText.HostmasterText | indisoluble/a_healthy_dns/dns_udp_handler.py:50-66 | `hostmaster.zone.` reads as a name exactly when `from_text` makes one of `hostmaster.zone` |
| RdataText.PrefixLabel | indisoluble/a_healthy_dns/records/soa_record.py:48 | a label in front of a validated name splits into that label and the name's labels, and is itself a validated name |
| Time.ATtl | indisoluble/a_healthy_dns/records/time.py:19-22 | 2·mi |
| Time.NsTtl | indisoluble/a_healthy_dns/records/time.py:25-28 | 30 times the A TTL, i.e. 60·mi |
| Time.SoaTtl | indisoluble/a_healthy_dns/records/time.py:31-34 | equal to the NS TTL |
| Time.DnskeyTtl | indisoluble/a_healthy_dns/records/time.py:61-64 | 10 times the A TTL, i.e. 20·mi |
| Time.SoaRefresh | indisoluble/a_healthy_dns/records/time.py:37-40 | equal to the DNSKEY TTL |
| Time.SoaRetry | indisoluble/a_healthy_dns/records/time.py:43-46 | equal to the A TTL |
| Time.SoaExpire | indisoluble/a_healthy_dns/records/time.py:49-52 | 5 times the retry, i.e. 10·mi |
| Time.SoaMinTtl | indisoluble/a_healthy_dns/records/time.py:55-58 | equal to the A TTL |
| Time.RRSigLifetimeOf | indisoluble/a_healthy_dns/records/time.py:12-16 | resign = refresh, expiration = 2·refresh + expire + retry = 52·mi |
| Time.TimersOrdered | indisoluble/a_healthy_dns/records/time.py:43-75 | for mi > 0: 0 < resign < expiration and 0 < retry < expire |
| Time.RefreshExceedsExpire | indisoluble/a_healthy_dns/records/time.py:37-52 | the SOA refresh is twice the SOA expire |
| Time.OneMinuteInterval | indisoluble/a_healthy_dns/records/time.py:19-75 | at mi = 60: TTL 3600, refresh 1200, retry 120, expire 600, minimum 120 |
| AHealthyIps.New | indisoluble/a_healthy_dns/records/a_healthy_ip.py:32-44 | the address error first, then the port error; on success the normalised address, the port and the status |
| AHealthyIps.UpdatedStatus | indisoluble/a_healthy_dns/records/a_healthy_ip.py:46-53 | the same value for the current status; otherwise the same address and port with the new status |
| AHealthyIps.UpdatedStatusRebuilds | indisoluble/a_healthy_dns/records/a_healthy_ip.py:51-53 | a changed status gives what the constructor gives for the same address, port and new status |
| AHealthyIps.UpdatedStatusValid | indisoluble/a_healthy_dns/records/a_healthy_ip.py:46-53 | a constructed value stays valid under a status update |
| AHealthyIps.UpdatedStatusLaws | indisoluble/a_healthy_dns/records/a_healthy_ip.py:46-53 | two updates act as the last one, and updating back to the original status gives the original |
| AHealthyIps.Equals | indisoluble/a_healthy_dns/records/a_healthy_ip.py:55-63 | equal exactly on (ip, port, health); never equal to another kind of object |
| AHealthyIps.HashConsistent | indisoluble/a_healthy_dns/records/a_healthy_ip.py:65-66 | equal objects have equal hash keys |
| HealthyIps.New | indisoluble/a_healthy_dns/healthy_ip.py:21-32 | the address error first, then the port error; on success the normalised address, the port and the status |
| HealthyIps.UpdatedStatus | indisoluble/a_healthy_dns/healthy_ip.py:34-40 | the same value for the current status; otherwise the same address and port with the new status |
| HealthyIps.UpdatedStatusRebuilds | indisoluble/a_healthy_dns/healthy_ip.py:38-40 | a changed status gives what the constructor gives for the same address, port and new status |
| HealthyIps.UpdatedStatusValid | indisoluble/a_healthy_dns/healthy_ip.py:34-40 | a constructed value stays valid under a status update |
| HealthyIps.UpdatedStatusLaws | indisoluble/a_healthy_dns/healthy_ip.py:34-40 | two updates act as the last one, and updating back to the original status gives the original |
| HealthyIps.Equals | indisoluble/a_healthy_dns/healthy_ip.py:42-50 | equal exactly for an object of the class with the same (ip, port, health); never equal to another kind of object |
| HealthyIps.HashConsistent | indisoluble/a_healthy_dns/healthy_ip.py:52-53 | equal objects have equal hash keys |
| AHealthyRecords.New | indisoluble/a_healthy_dns/records/a_healthy_record.py:29-32 | the subdomain and the set of the given addresses, so duplicates and order are gone |
| AHealthyRecords.NewForgetsOrder | indisoluble/a_healthy_dns/records/a_healthy_record.py:29-32 | two lists with the same members give the same record |
| AHealthyRecords.UpdatedIps | indisoluble/a_healthy_dns/records/a_healthy_record.py:34-39 | the same subdomain with exactly the argument's members, and the same record when the argument equals the stored set |
| AHealthyRecords.ListIsNeverStored | indisoluble/a_healthy_dns/records/a_healthy_record.py:36 | a list never equals the stored frozenset, so a list argument always gives the record the constructor builds from it |
| AHealthyRecords.Equals | indisoluble/a_healthy_dns/records/a_healthy_record.py:41-45 | equal exactly on the subdomain; never equal to another kind of object |
| AHealthyRecords.HashConsistent | indisoluble/a_healthy_dns/records/a_healthy_record.py:47-48 | equal exactly when the hash keys agree; a record equals itself with any other addresses |
| HealthyARecords.New | indisoluble/a_healthy_dns/healthy_a_record.py:23-31 | ttl_a <= 0 raises `ValueError`; otherwise subdomain, TTL and addresses stored as given |
| HealthyARecords.Equals | indisoluble/a_healthy_dns/healthy_a_record.py:33-37 | equal exactly on the subdomain, ignoring TTL and addresses |
| HealthyARecords.HashConsistent | indisoluble/a_healthy_dns/healthy_a_record.py:39-40 | equal exactly when the hash keys agree; records for the same subdomain are equal |
| CheckableIp.IsValidIpLoop | indisoluble/a_healthy_dns/checkable_ip.py:28-37 | the octet loop gives the same verdict and message as the shared dotted-quad check |
| CheckableIp.IsValidPortCheck | indisoluble/a_healthy_dns/checkable_ip.py:40-44 | the same verdict and message as the shared port check, which accepts exactly 1 <= port <= 65535 |
| CheckableIp.New | indisoluble/a_healthy_dns/checkable_ip.py:15-25 | the address error first, then the port error; on success the address stored verbatim, not normalised |
| CheckableIp.Equals | indisoluble/a_healthy_dns/checkable_ip.py:46-50 | equal exactly on (ip, port) |
| CheckableIp.HashConsistent | indisoluble/a_healthy_dns/checkable_ip.py:52-53 | equal objects have equal hash keys |
| CheckableIps.FirstInvalid | indisoluble/a_healthy_dns/checkable_ips.py:23-26 | the position of the first address that is not a dotted quad, or none when all are |
| CheckableIps.New | indisoluble/a_healthy_dns/checkable_ips.py:18-34 | an empty list raises first, then the first invalid address, then the port; on success the addresses in order and verbatim |
| ARecords.MakeARecord | indisoluble/a_healthy_dns/records/a_record.py:21-34 | `None` exactly when no member is healthy; otherwise an IN A set with TTL 2·mi whose addresses are exactly the healthy members' |
| ARecords.HealthyMembersHaveAddresses | indisoluble/a_healthy_dns/records/a_record.py:25-31 | every healthy member's address is among the record's addresses |
| ARecords.SameHealthySameRecord | indisoluble/a_healthy_dns/records/a_record.py:25-31 | two records whose healthy addresses agree give the same A set |
| ARecords.AddressesAreValid | indisoluble/a_healthy_dns/records/a_record.py:25-31 | built from valid members, every address in the set is a valid, already normalised dotted quad, which the A parser of `rdataset.from_text` reads |
| NsRecords.MakeNsRecord | indisoluble/a_healthy_dns/records/ns_record.py:20-32 | a record exactly when every name server reads as a name, `SyntaxError` otherwise; then IN NS, TTL 60·mi, one entry per given name server |
| NsRecords.TargetsRoundTrip | indisoluble/a_healthy_dns/records/ns_record.py:25-27 | a record that reads names exactly the given name servers |
| SoaRecords.SerialStep | indisoluble/a_healthy_dns/records/soa_record.py:28-40 | a reading equal to the last serial raises `ValueError`, one above 2^32-1 raises `OverflowError`, any other is yielded and becomes the last serial; after a raise the generator is closed and gives `StopIteration` |
| SoaRecords.Serials | indisoluble/a_healthy_dns/records/soa_record.py:28-40 | one outcome per clock reading, each step starting from the state the previous one left |
| SoaRecords.ClosedStaysClosed | indisoluble/a_healthy_dns/records/soa_record.py:36-37 | a closed generator gives `StopIteration` on every further step |
| SoaRecords.SerialYielded | indisoluble/a_healthy_dns/records/soa_record.py:32-40 | each yielded serial is that call's clock reading, fits 32 bits and differs from the previous serial, and every earlier step yielded too |
| SoaRecords.SerialsShift | indisoluble/a_healthy_dns/records/soa_record.py:32-40 | the run after the first step is the run from that step's state |
| SoaRecords.SerialRaised | indisoluble/a_healthy_dns/records/soa_record.py:36-37 | after a raise every later step gives `StopIteration` |
| SoaRecords.SerialsIncrease | indisoluble/a_healthy_dns/records/soa_record.py:32-40 | consecutive yielded serials differ, and under a non-decreasing clock they strictly increase |
| SoaRecords.SoaSerialIterator.constructor | indisoluble/a_healthy_dns/records/soa_record.py:28-31 | a fresh generator whose last serial is 0 |
| SoaRecords.SoaSerialIterator.Next | indisoluble/a_healthy_dns/records/soa_record.py:32-40 | one step of the generator, with the new state that step's |
| SoaRecords.SoaRecord | indisoluble/a_healthy_dns/records/soa_record.py:47-69 | a record exactly when the primary NS and `hostmaster.<origin>` read as names and the serial and the timers fit 32 bits, `SyntaxError` otherwise; then IN SOA, TTL 60·mi, one record: primary NS, `hostmaster.<origin>`, the serial, refresh 20·mi, retry 2·mi, expire 10·mi, minimum 2·mi |
| SoaRecords.SoaTimersFit | indisoluble/a_healthy_dns/records/soa_record.py:50-53 | with a positive interval the timers read exactly when 20·mi fits 32 bits |
| SoaRecords.SoaRecordSerial | indisoluble/a_healthy_dns/records/soa_record.py:55-69 | for records that read, the serial can be read back from the record, and two records are equal exactly when their serials are |
| SoaRecords.RecordStep | indisoluble/a_healthy_dns/records/soa_record.py:55-74 | one `next()`: `StopIteration` once finished; the serial generator's error, or the SOA text's `SyntaxError`, finishes the generator; otherwise the SOA around the yielded serial |
| SoaRecords.SoaRecords | indisoluble/a_healthy_dns/records/soa_record.py:43-74 | one outcome per clock reading |
| SoaRecords.RecordClosedStaysClosed | indisoluble/a_healthy_dns/records/soa_record.py:55-74 | a finished record generator gives `StopIteration` on every further call |
| SoaRecords.RecordRaised | indisoluble/a_healthy_dns/records/soa_record.py:55-74 | after a raise, for the serial or the text, every later call gives `StopIteration` |
| SoaRecords.RecordStepCarries | indisoluble/a_healthy_dns/records/soa_record.py:55-69 | one call with text that reads finishes the two generators together and yields the SOA around the serial yielded, or the serial's error |
| SoaRecords.SoaRecordsCarrySerials | indisoluble/a_healthy_dns/records/soa_record.py:55-74 | with text that reads and a non-negative clock, the n-th record is the SOA around the n-th serial and reads, or the n-th serial's error |
| SoaRecords.SoaRecordIterator.constructor | indisoluble/a_healthy_dns/records/soa_record.py:43-54 | the configured interval, origin and primary name server, around a fresh serial generator in its initial state |
| SoaRecords.SoaRecordIterator.Next | indisoluble/a_healthy_dns/records/soa_record.py:55-74 | one `next()`, equal to `RecordStep` of the old state, and the new state; a finished serial generator leaves this one finished |
| Dnssec.NextKey | indisoluble/a_healthy_dns/records/dnssec.py:39-66 | inception is the clock reading, expiration inception + 52·mi, resign inception + 20·mi, DNSKEY TTL 20·mi, and the one configured key pair |
| Dnssec.KeysDifferOnlyInTime | indisoluble/a_healthy_dns/records/dnssec.py:43-61 | two yields share the key pair and the DNSKEY TTL, their times shift with the clock, and they are equal exactly when the clock readings are |
| Dnssec.ResignInsideWindow | indisoluble/a_healthy_dns/records/dnssec.py:49-50 | for mi > 0, inception < resign < expiration, and the signature outlives the resign time by more than the SOA expire |
| ZoneOrigins.ToAbsName | indisoluble/a_healthy_dns/records/zone_origins.py:12-17 | `ValueError` with the validator's message exactly for an invalid name; a valid name raises only `from_text`'s `LabelTooLong` or `NameTooLong`; otherwise the absolute, well-formed name that prints as `name + "."` |
| ZoneOrigins.PrecedesIrreflexive | indisoluble/a_healthy_dns/records/zone_origins.py:33-36 | the sort order (more labels first, then text) is irreflexive |
| ZoneOrigins.PrecedesTransitive | indisoluble/a_healthy_dns/records/zone_origins.py:33-36 | the sort order is transitive |
| ZoneOrigins.PrecedesTotal | indisoluble/a_healthy_dns/records/zone_origins.py:33-36 | two different names are ordered one way or the other |
| ZoneOrigins.InsertSorted | indisoluble/a_healthy_dns/records/zone_origins.py:33-36 | inserting into a sorted list keeps it strictly sorted and adds exactly the new name |
| ZoneOrigins.SortOriginsSorted | indisoluble/a_healthy_dns/records/zone_origins.py:33-36 | sorting gives a strictly sorted list with exactly the input's members |
| ZoneOrigins.SortedUnique | indisoluble/a_healthy_dns/records/zone_origins.py:33-36 | two strictly sorted lists with the same members are equal, so the order is determined by the set |
| ZoneOrigins.MapResults | indisoluble/a_healthy_dns/records/zone_origins.py:34 | the comprehension over the aliases: all results in order, or the first error |
| ZoneOrigins.AbsNames | indisoluble/a_healthy_dns/records/zone_origins.py:30-34 | every name made absolute, or the error of the first name that raises |
| ZoneOrigins.New | indisoluble/a_healthy_dns/records/zone_origins.py:28-36 | a primary or alias that `ToAbsName` rejects raises, the primary first; otherwise the absolute primary and the set {primary} ∪ aliases strictly sorted by decreasing label count, then text |
| ZoneOrigins.ListedNames | indisoluble/a_healthy_dns/records/zone_origins.py:33-36 | the members of the primary followed by the aliases are exactly the primary and the aliases |
| ZoneOrigins.FirstMatch | indisoluble/a_healthy_dns/records/zone_origins.py:43-46 | the first listed origin the name lies under, or none |
| ZoneOrigins.RelativizeName | indisoluble/a_healthy_dns/records/zone_origins.py:38-46 | a relative name is returned as is; an absolute name gives `None` exactly when it lies under no origin, and otherwise a relative name |
| ZoneOrigins.RelativizeMostSpecific | indisoluble/a_healthy_dns/records/zone_origins.py:43-46 | the result is relative to an origin the name lies under and derelativizes back to the name; that origin lies under every other matching origin and has at least as many labels |
| ZoneOrigins.SuffixOfSuffix | indisoluble/a_healthy_dns/records/zone_origins.py:43-46 | of two origins a name lies under, the longer lies under the shorter |
| FactoryCommon.CheckSubdomain | indisoluble/a_healthy_dns/dns_server_config_factory.py:154 | the subdomain check on a JSON value: a string as usual, a falsy value reported empty, any other value `AttributeError` |
| FactoryCommon.FirstBadNameServer | indisoluble/a_healthy_dns/dns_server_config_factory.py:153-157 | the first name server that is not a valid string, or none when all pass |
| FactoryCommon.MakeOriginName | indisoluble/a_healthy_dns/dns_server_config_factory.py:38-45 | `None` exactly for an invalid zone; a valid zone too long for a name raises `from_text`'s `LabelTooLong` or `NameTooLong`; otherwise the absolute, well-formed name that prints as `zone + "."` |
| FactoryCommon.SubdomainLabels | indisoluble/a_healthy_dns/dns_server_config_factory.py:40-45 | a validated name has no empty label |
| FactoryCommon.BuildAll | indisoluble/a_healthy_dns/dns_server_config_factory.py:90-94 | the address comprehension succeeds exactly when every entry is a string the constructor accepts, giving one value per entry in order; otherwise the first entry's error |
| FactoryCommon.BuildAllErrors | indisoluble/a_healthy_dns/dns_server_config_factory.py:90-94 | the comprehension raises only `AttributeError` or the constructor's `ValueError` |
| FactoryCommon.CollectAll | indisoluble/a_healthy_dns/dns_server_config_factory.py:123-132 | the records of all items in order exactly when every item gives one; otherwise the first `None` or error |
| FactoryCommon.CollectAllFirstFailure | indisoluble/a_healthy_dns/dns_server_config_factory.py:124-128 | the first item without a record decides the outcome |
| FactoryCommon.CollectLoop | indisoluble/a_healthy_dns/dns_server_config_factory.py:123-132 | the loop returns `CollectAll` of the items |
| FactoryCommon.ParseSubConfig | indisoluble/a_healthy_dns/dns_server_config_factory.py:62-88 | a non-dictionary, a missing or empty list, or a non-integer port gives `None`; a missing key raises `KeyError`; otherwise the list and the port |
| FactoryCommon.AsSet | indisoluble/a_healthy_dns/dns_server_zone_factory.py:147-156 | the loop outcome with its records as a set, same members |
| FactoryCommon.CollectSetLoop | indisoluble/a_healthy_dns/dns_server_zone_factory.py:147-156 | the set-building loop returns `AsSet(CollectAll(...))` |
| ConfigFactory.SameAddressesAccepted | indisoluble/a_healthy_dns/dns_server_config_factory.py:91 | `HealthyIp` and `AHealthyIp` accept and reject the same inputs |
| ConfigFactory.MakeHealthyARecord | indisoluble/a_healthy_dns/dns_server_config_factory.py:48-100 | corrected: a bad subdomain gives `None`; a valid one too long below the origin raises `from_text`'s error before the entry is looked at; a non-dictionary entry gives `None`; the only exceptions are `LabelTooLong`, `NameTooLong`, `KeyError` and `AttributeError` |
| ConfigFactory.MakeHealthyARecordLaws | indisoluble/a_healthy_dns/dns_server_config_factory.py:48-100 | corrected: a record exactly when the subdomain passes and reads as a name below the origin, the entry passes and every address builds; then that name and exactly the normalised addresses, valid and unhealthy |
| ConfigFactory.BuiltAddresses | indisoluble/a_healthy_dns/dns_server_config_factory.py:90-94 | the built set holds exactly the normalised entries with the port and status false |
| ConfigFactory.MakeHealthyARecordAsWritten | indisoluble/a_healthy_dns/dns_server_config_factory.py:96-100 | as written: every entry that passes all checks raises `TypeError`; any other agrees with the corrected version |
| ConfigFactory.SameBuildOutcome | indisoluble/a_healthy_dns/dns_server_config_factory.py:90-94 | the comprehension succeeds or fails the same way for both address classes |
| ConfigFactory.ARecordsLaws | indisoluble/a_healthy_dns/dns_server_config_factory.py:103-132 | records exactly for a non-empty dictionary whose every entry passes; only `LabelTooLong`, `NameTooLong`, `KeyError` or `AttributeError` raise; the records are non-empty and lie strictly below the origin with valid, unhealthy addresses |
| ConfigFactory.ARecordsContent | indisoluble/a_healthy_dns/dns_server_config_factory.py:123-132 | an accepted set is non-empty and its records lie strictly below the origin with valid, unhealthy addresses |
| ConfigFactory.ARecordsDistinct | indisoluble/a_healthy_dns/dns_server_config_factory.py:123-132 | from a dictionary with each key once, as `json.loads` gives it, no two records share a subdomain, as a frozenset of records compared by subdomain holds |
| ConfigFactory.MakeARecords | indisoluble/a_healthy_dns/dns_server_config_factory.py:103-132 | the loop equals `ARecordsResult` |
| ConfigFactory.NameServersLaws | indisoluble/a_healthy_dns/dns_server_config_factory.py:135-161 | corrected: a set exactly for a non-empty list of valid names; only `AttributeError` raises; then exactly the names with a dot appended |
| ConfigFactory.MakeNameServers | indisoluble/a_healthy_dns/dns_server_config_factory.py:152-161 | corrected loop equals `NameServersResult` |
| ConfigFactory.MakeNameServersAsWritten | indisoluble/a_healthy_dns/dns_server_config_factory.py:152-161 | as written: a first entry that passes raises `AttributeError` at `.add`; otherwise equal to the corrected result |
| ConfigFactory.MakePrivateKey | indisoluble/a_healthy_dns/dns_server_config_factory.py:175-189 | a key exactly when the file reads to non-empty bytes and the key builds from them, and then that key |
| ConfigFactory.MakeConfig | indisoluble/a_healthy_dns/dns_server_config_factory.py:192-216 | an invalid zone gives `None`; only `LabelTooLong`, `NameTooLong`, `KeyError` or `AttributeError` raise; a configuration exactly when every step accepts (`ConfigAccepted`), and then it holds the zone's name, the name servers, the records and the key those steps give |
| ConfigFactory.MakeConfigLaws | indisoluble/a_healthy_dns/dns_server_config_factory.py:192-216 | a configuration has an absolute origin printing as `zone + "."`, non-empty name servers ending in a dot, non-empty records strictly below the origin with distinct subdomains and valid, unhealthy addresses, and a key exactly when a path is given |
| ZoneFactory.MakeHealthyARecord | indisoluble/a_healthy_dns/dns_server_zone_factory.py:69-122 | a bad subdomain gives `None`; a valid one too long below the origin raises `from_text`'s error before the entry is looked at; a non-dictionary entry gives `None`; the only exceptions are `LabelTooLong`, `NameTooLong`, `KeyError` and `AttributeError` |
| ZoneFactory.BuiltAddresses | indisoluble/a_healthy_dns/dns_server_zone_factory.py:112-116 | the address set holds exactly the normalised entries with the port and status false |
| ZoneFactory.MakeHealthyARecordLaws | indisoluble/a_healthy_dns/dns_server_zone_factory.py:69-122 | a record exactly when the subdomain reads as a name below the origin, the entry passes and ttl_a > 0; then that name, the given TTL and exactly the normalised addresses, valid and unhealthy |
| ZoneFactory.NonPositiveTtlRejectsAll | indisoluble/a_healthy_dns/dns_server_zone_factory.py:118-122 | with ttl_a <= 0 no entry gives a record |
| ZoneFactory.ARecordsAccepted | indisoluble/a_healthy_dns/dns_server_zone_factory.py:125-156 | records exactly for a non-empty dictionary whose every entry builds |
| ZoneFactory.ARecordsErrors | indisoluble/a_healthy_dns/dns_server_zone_factory.py:125-156 | the only exceptions are `LabelTooLong`, `NameTooLong`, `KeyError` and `AttributeError` |
| ZoneFactory.ARecordsContent | indisoluble/a_healthy_dns/dns_server_zone_factory.py:125-156 | an accepted set is non-empty and every record lies strictly below the origin with the TTL and valid, unhealthy addresses |
| ZoneFactory.AcceptedIff | indisoluble/a_healthy_dns/dns_server_zone_factory.py:148-154 | an item gives a record exactly when its subdomain and entry pass |
| ZoneFactory.CollectedRecordFacts | indisoluble/a_healthy_dns/dns_server_zone_factory.py:148-154 | every collected record lies strictly below the origin, carries the positive TTL, and holds valid, unhealthy addresses |
| ZoneFactory.MakeARecords | indisoluble/a_healthy_dns/dns_server_zone_factory.py:147-156 | the loop equals `ARecordsResult` |
| ZoneFactory.NsRecordLaws | indisoluble/a_healthy_dns/dns_server_zone_factory.py:159-197 | a record exactly for a non-empty list of valid names that `from_text` reads, with ttl_ns > 0; `SyntaxError` exactly when the list and the TTL pass but some name is too long; only `AttributeError` and `SyntaxError` raise; then IN NS with ttl_ns naming exactly the absolute names, primary = first name + ".", which reads as a name |
| ZoneFactory.NameServersRead | indisoluble/a_healthy_dns/dns_server_zone_factory.py:181-195 | checked names with a dot appended read as names exactly when `from_text` makes a name of each |
| ZoneFactory.MakeNsRecord | indisoluble/a_healthy_dns/dns_server_zone_factory.py:176-197 | the loop, the TTL check and the record text equal `NsRecordResult` |
| ZoneFactory.MakeSoaRecord | indisoluble/a_healthy_dns/dns_server_zone_factory.py:200-247 | `None` exactly when ttl, refresh, retry, expire or minimum is not positive; `SyntaxError` exactly when they are but the SOA text does not read; then IN SOA with that TTL, serial 0, the primary NS and `hostmaster.<origin>` |
| ZoneFactory.ZoneSoaReads | indisoluble/a_healthy_dns/dns_server_zone_factory.py:230-247 | for a validated zone and a primary that reads, the SOA reads exactly when the zone has at most 242 characters and every timer fits 32 bits |
| ZoneFactory.SoaMatchesTimePolicy | indisoluble/a_healthy_dns/dns_server_zone_factory.py:228-247 | with the time policy's values the factory's SOA reads exactly when the generator's does, and is then the generator's record with serial 0 |
| ZoneFactory.MakePrivateKey | indisoluble/a_healthy_dns/dns_server_zone_factory.py:250-272 | a key exactly when the DNSKEY TTL and the lifetime are positive and the key builds, and then with that TTL and lifetime |
| ZoneFactory.MakeZone | indisoluble/a_healthy_dns/dns_server_zone_factory.py:275-300 | an accepted zone is the empty zone at the origin with the A records, the NS set, the SOA and the key the part factories build |
| ZoneFactory.MakeZoneErrors | indisoluble/a_healthy_dns/dns_server_zone_factory.py:275-278 | an invalid zone gives `None` before anything else; the only exceptions are `LabelTooLong`, `NameTooLong`, `KeyError`, `AttributeError` and the record text's `SyntaxError` |
| ZoneFactory.MakeZoneAccepted | indisoluble/a_healthy_dns/dns_server_zone_factory.py:275-300 | a zone exactly when every step accepts (`ZoneAccepted`): the name servers read, the SOA numbers are positive and fit 32 bits, and the zone has at most 242 characters |
| ZoneFactory.MakeZoneRecords | indisoluble/a_healthy_dns/dns_server_zone_factory.py:275-300 | an accepted zone's origin is absolute and prints as `zone + "."`, and its records are non-empty and lie below it with the TTL |
| ZoneFactory.MakeZoneApex | indisoluble/a_healthy_dns/dns_server_zone_factory.py:284-300 | NS TTL the given one and positive; the SOA's primary is one of the NS names; serial 0; a key exactly when a PEM is given |
| ServerConfig.FirstError | indisoluble/a_healthy_dns/dns_server_config.py:82-85 | no error exactly when every item passes |
| ServerConfig.FirstErrorAt | indisoluble/a_healthy_dns/dns_server_config.py:82-85 | the reported error is that of the first item that fails |
| ServerConfig.New | indisoluble/a_healthy_dns/dns_server_config.py:61-136 | the checking loops raise exactly what `Build` reports, and on success store what `Build` builds |
| ServerConfig.ResolutionCheckIff | indisoluble/a_healthy_dns/dns_server_config.py:90-105 | a resolution passes exactly when its subdomain is valid and its list is non-empty with every address valid |
| ServerConfig.NameServersPass | indisoluble/a_healthy_dns/dns_server_config.py:82-85 | no name-server error exactly when every name server is valid |
| ServerConfig.ResolutionsPass | indisoluble/a_healthy_dns/dns_server_config.py:90-105 | no resolution error exactly when every resolution passes |
| ServerConfig.ErrorIffInvalid | indisoluble/a_healthy_dns/dns_server_config.py:73-123 | an error is raised exactly when the arguments are not all acceptable |
| ServerConfig.NamesPassed | indisoluble/a_healthy_dns/dns_server_config.py:73-105 | once the zone, name servers and resolutions pass, the error is that of the numbers |
| ServerConfig.AcceptedIff | indisoluble/a_healthy_dns/dns_server_config.py:73-123 | the construction succeeds exactly when every check passes, and only ever raises `ValueError` |
| ServerConfig.SourceResolution | indisoluble/a_healthy_dns/dns_server_config.py:138-164 | the class's own validators accept exactly what the shared tools accept, for one resolution |
| ServerConfig.SourceArgs | indisoluble/a_healthy_dns/dns_server_config.py:138-164 | the same for all the arguments |
| ServerConfig.HostedZoneFirst | indisoluble/a_healthy_dns/dns_server_config.py:73-77 | an invalid hosted zone is reported before anything else, with the empty or the label message |
| ServerConfig.EmptyListsReported | indisoluble/a_healthy_dns/dns_server_config.py:79-88 | an empty name-server list or empty resolutions is reported |
| ServerConfig.FirstBadNameServerReported | indisoluble/a_healthy_dns/dns_server_config.py:82-85 | the first invalid name server is the one reported |
| ServerConfig.ResolutionReported | indisoluble/a_healthy_dns/dns_server_config.py:90-105 | a failing resolution reports its subdomain error, its empty list, or its first invalid address |
| ServerConfig.FirstBadResolutionReported | indisoluble/a_healthy_dns/dns_server_config.py:87-105 | the first failing resolution is the one reported |
| ServerConfig.NumbersInOrder | indisoluble/a_healthy_dns/dns_server_config.py:107-123 | ttl_a, ttl_ns, serial, refresh, retry and expire must be positive, and the first that is not is reported |
| ServerConfig.DerivedFields | indisoluble/a_healthy_dns/dns_server_config.py:125-136 | zone + ".", each name server + "." in order, the first as primary, the numbers as given |
| ServerConfig.KeyInjective | indisoluble/a_healthy_dns/dns_server_config.py:127-130 | different subdomains give different `sub.zone.` keys |
| ServerConfig.AbsResolutionsKeys | indisoluble/a_healthy_dns/dns_server_config.py:127-130 | the keys are exactly the subdomains' `sub.zone.` names |
| ServerConfig.AbsResolutionsValues | indisoluble/a_healthy_dns/dns_server_config.py:127-130 | each key maps to its subdomain's address list |
| ServerConfig.ResolutionsOfConfig | indisoluble/a_healthy_dns/dns_server_config.py:127-130 | an accepted configuration looks up `sub.zone.` to the addresses given for `sub`, and no other name |
| ZoneUpdater.LoopDurationClosedForm | indisoluble/a_healthy_dns/dns_server_zone_updater.py:48-66 | the summed per-record time is timeout times the number of addresses plus the per-record delta times the number of records |
| ZoneUpdater.CalculateMaxInterval | indisoluble/a_healthy_dns/dns_server_zone_updater.py:52-66 | max(min_interval, timeout·addresses + (3 when signing, 1 otherwise)·records), so never below min_interval |
| ZoneUpdater.RefreshedRecord | indisoluble/a_healthy_dns/dns_server_zone_updater.py:198-213 | same subdomain; every address carries its probe's verdict |
| ZoneUpdater.RefreshedRecordMembers | indisoluble/a_healthy_dns/dns_server_zone_updater.py:198-213 | every address reappears with its verdict, and each result comes from an address of the record with the same ip and port |
| ZoneUpdater.Refreshed | indisoluble/a_healthy_dns/dns_server_zone_updater.py:215-238 | every record refreshed, in order |
| ZoneUpdater.RefreshedValid | indisoluble/a_healthy_dns/dns_server_zone_updater.py:198-209 | refreshing keeps every address valid |
| ZoneUpdater.RefreshRecordsAborted | indisoluble/a_healthy_dns/dns_server_zone_updater.py:219-223 | an abort while probing one record is an abort of the whole pass |
| ZoneUpdater.TotalIpsPrefix | indisoluble/a_healthy_dns/dns_server_zone_updater.py:215-238 | the probes of a prefix are at most the probes of the whole pass |
| ZoneUpdater.RefreshOutcomeLaws | indisoluble/a_healthy_dns/dns_server_zone_updater.py:187-238 | ABORTED exactly when the callback says so before some probe; CHANGES exactly when not aborted and some record's set differs; otherwise NO_CHANGES |
| ZoneUpdater.AbortBeforeFirstProbe | indisoluble/a_healthy_dns/dns_server_zone_updater.py:193-196 | an abort before the first probe aborts any pass with an address to probe |
| ZoneUpdater.AddARecord | indisoluble/a_healthy_dns/dns_server_zone_updater.py:124-132 | nothing when no address is healthy; otherwise the A set added under the subdomain's zone name, or that name's error |
| ZoneUpdater.LastKeyFresh | indisoluble/a_healthy_dns/dns_server_zone_updater.py:134-146 | record keys are never the apex and never collide |
| ZoneUpdater.AddARecordsKeys | indisoluble/a_healthy_dns/dns_server_zone_updater.py:134-146 | adding the records to the apex succeeds, keeps the apex, and adds only served records' keys |
| ZoneUpdater.AddFreshARecord | indisoluble/a_healthy_dns/dns_server_zone_updater.py:124-132 | a record under a free key adds exactly one node holding only its A set, or nothing |
| ZoneUpdater.AddARecordsContent | indisoluble/a_healthy_dns/dns_server_zone_updater.py:134-146 | each served record's key holds only its A set |
| ZoneUpdater.AddARecordsRaise | indisoluble/a_healthy_dns/dns_server_zone_updater.py:140-146 | once adding raises, the remaining records are not reached |
| ZoneUpdater.Sign | indisoluble/a_healthy_dns/dns_server_zone_updater.py:148-166 | nothing without a key; otherwise a signature from the signing time to the next key's expiration, and the next signing time 20·mi later |
| ZoneUpdater.InitialAction | indisoluble/a_healthy_dns/dns_server_zone_updater.py:97-105 | a signing action exactly when a key is given, with resign time 0 |
| ZoneUpdater.RecreateReportsRebuild | indisoluble/a_healthy_dns/dns_server_zone_updater.py:168-178 | a rebuild never reports nothing done, and a rebuild that succeeds marks the zone as built |
| ZoneUpdater.RebuildDecision | indisoluble/a_healthy_dns/dns_server_zone_updater.py:240-256 | an abort changes nothing and reports nothing done; otherwise the records are replaced, and the zone is rebuilt exactly when a status changed, the resign time is due, or it was never built |
| ZoneUpdater.UpdateWithoutProbing | indisoluble/a_healthy_dns/dns_server_zone_updater.py:258-265 | `update(check_ips=False)` rebuilds whatever the probe or the callback would say |
| ZoneUpdater.ApexNode | indisoluble/a_healthy_dns/dns_server_zone_updater.py:134-140 | the apex starts with exactly the NS and SOA sets |
| ZoneUpdater.RebuildContent | indisoluble/a_healthy_dns/dns_server_zone_updater.py:115-146 | a rebuild goes ahead exactly when the SOA generator runs, its serial yields and the SOA text reads; then the apex holds exactly NS and the SOA with the new serial, every other node holds only a served record's A set and every served record has one; a raising SOA generator changes only the generator |
| ZoneUpdater.ConfiguredNameServersParse | indisoluble/a_healthy_dns/dns_server_zone_updater.py:93 | the configured name servers make the NS record read exactly when `from_text` makes a name of each |
| ZoneUpdater.AbsoluteNames | indisoluble/a_healthy_dns/dns_server_zone_updater.py:93 | checked names with a dot appended read as names exactly when `from_text` makes a name of each |
| ZoneUpdater.SigningRules | indisoluble/a_healthy_dns/dns_server_zone_updater.py:148-185 | the rebuilt zone is signed exactly when a key is configured; then resign = signing time + 20·mi and the signature spans 52·mi |
| ZoneUpdater.FirstRebuildSigns | indisoluble/a_healthy_dns/dns_server_zone_updater.py:97-105 | with the initial state, signing is due exactly when a key is configured |
| ZoneUpdater.ClearZone | indisoluble/a_healthy_dns/dns_server_zone_updater.py:115-122 | deleting every name one by one leaves no node |
| ZoneUpdater.ListRecords | indisoluble/a_healthy_dns/dns_server_zone_updater.py:106 | `list(set)`: each record of the set exactly once |
| ZoneUpdater.DnsServerZoneUpdater.Init | indisoluble/a_healthy_dns/dns_server_zone_updater.py:77-113 | the given NS set, the SOA generator's origin and primary, and the initial state: the records, an empty zone, the initial signing action, not built, a fresh SOA generator |
| ZoneUpdater.DnsServerZoneUpdater.New | indisoluble/a_healthy_dns/dns_server_zone_updater.py:77-113 | `ValueError` for min_interval <= 0, then connection timeout <= 0, then `SyntaxError` when a name server does not read, then `StopIteration` for no name server; an updater exactly otherwise, valid, holding each configured record once, the computed max interval, the NS record `make_ns_record` reads, a primary among the name servers and the initial signing action |
| ZoneUpdater.DnsServerZoneUpdater.RefreshARecord | indisoluble/a_healthy_dns/dns_server_zone_updater.py:187-213 | `None` exactly when the callback aborts within this record's probes; otherwise the refreshed record |
| ZoneUpdater.DnsServerZoneUpdater.RefreshRecords | indisoluble/a_healthy_dns/dns_server_zone_updater.py:215-238 | the pass's outcome is `RefreshOutcome`, and when not aborted the records are `Refreshed` |
| ZoneUpdater.DnsServerZoneUpdater.RefreshARecs | indisoluble/a_healthy_dns/dns_server_zone_updater.py:215-238 | the outcome is `RefreshOutcome`; an aborted pass keeps the records, otherwise they become the refreshed ones; the zone is untouched and the updater stays valid, its records still placed below the origin |
| ZoneUpdater.DnsServerZoneUpdater.AddARecordsLoop | indisoluble/a_healthy_dns/dns_server_zone_updater.py:141-146 | the loop over the records equals `AddARecords` |
| ZoneUpdater.DnsServerZoneUpdater.AddRecordsToZone | indisoluble/a_healthy_dns/dns_server_zone_updater.py:134-146 | the SOA generator steps as `RecordStep` says; its error is returned, or the nodes NS, the new SOA and the A records build |
| ZoneUpdater.DnsServerZoneUpdater.SignZone | indisoluble/a_healthy_dns/dns_server_zone_updater.py:148-166 | the new signing action is `Sign` of the old, the zone gains its signature when there is one, and nothing else changes |
| ZoneUpdater.DnsServerZoneUpdater.RecreateZone | indisoluble/a_healthy_dns/dns_server_zone_updater.py:168-178 | the new state is `RecreateSpec` of the old |
| ZoneUpdater.DnsServerZoneUpdater.IsZoneSignNearToExpire | indisoluble/a_healthy_dns/dns_server_zone_updater.py:180-185 | true exactly when a key is configured and the clock has reached the resign time |
| ZoneUpdater.DnsServerZoneUpdater.RecreateZoneAfterRefresh | indisoluble/a_healthy_dns/dns_server_zone_updater.py:240-256 | the new state and result are `AfterRefreshSpec` of the old |
| ZoneUpdater.DnsServerZoneUpdater.Update | indisoluble/a_healthy_dns/dns_server_zone_updater.py:258-265 | the new state and result are `UpdateSpec` of the old |
| ZoneUpdater.ConfigFitsUpdater | indisoluble/a_healthy_dns/dns_server_zone_updater.py:77-113 | every configuration `make_config` builds from decoded JSON meets what the updater needs: an absolute origin, valid addresses, records strictly below it with distinct subdomains |
| ZoneUpdater.ListedPlaced | indisoluble/a_healthy_dns/dns_server_zone_updater.py:106 | the records of such a configuration, listed once each, are placed below the origin and have valid addresses |
| ZoneUpdater.RefreshedPlaced | indisoluble/a_healthy_dns/dns_server_zone_updater.py:213-232 | refreshing keeps every subdomain, so the records stay placed below the origin |
| ServerUdpHandler.LookupNode | indisoluble/a_healthy_dns/dns_server_udp_handler.py:22-32 | a node is found only for a relative name or an absolute name under the origin |
| ServerUdpHandler.LookupNodeIff | indisoluble/a_healthy_dns/dns_server_udp_handler.py:22-32 | a relative name is looked up as is; an absolute name is found exactly when some key derelativizes to it, and then under that key |
| ServerUdpHandler.UpdateResponse | indisoluble/a_healthy_dns/dns_server_udp_handler.py:16-50 | the response afterwards is `Updated` of the response before |
| ServerUdpHandler.Handle | indisoluble/a_healthy_dns/dns_server_udp_handler.py:53-74 | the message sent is `Serve` of the datagram: nothing for a datagram that does not parse or has QR set, where `make_response` raises |
| ServerUdpHandler.RepliesAreAuthoritative | indisoluble/a_healthy_dns/dns_server_udp_handler.py:57-64 | a reply exactly for a datagram that parses and has QR clear, always with AA and QR, the query's id, question and RD |
| ServerUdpHandler.NoQuestionFormerr | indisoluble/a_healthy_dns/dns_server_udp_handler.py:66-71 | no question gives FORMERR and an empty answer, whatever the zone |
| ServerUdpHandler.FirstQuestionDecides | indisoluble/a_healthy_dns/dns_server_udp_handler.py:66-68 | only the first question matters |
| ServerUdpHandler.AnswerIffStored | indisoluble/a_healthy_dns/dns_server_udp_handler.py:16-50 | NOERROR exactly when a non-empty set of the type is stored at the name, and then one RRset owned by the query name copying the stored class, type, TTL and records; otherwise NXDOMAIN with no answer |
| ServerUdpHandler.MissesAreNxdomain | indisoluble/a_healthy_dns/dns_server_udp_handler.py:22-42 | a name outside the zone, a missing node or a node without the type gives NXDOMAIN |
| ServerUdpHandler.HealthyRecordsAnswered | indisoluble/a_healthy_dns/dns_server_udp_handler.py:44-49 | after a rebuild, an A query for a served subdomain gets exactly its healthy addresses with TTL 2·mi |
| UdpHandler.ResponseForARecord | indisoluble/a_healthy_dns/dns_udp_handler.py:12-24 | the response afterwards is `ForA` of the response before: NXDOMAIN for an unknown name, `SyntaxError` with the response untouched when an address does not read, else the answer appended |
| UdpHandler.ResponseForNsRecord | indisoluble/a_healthy_dns/dns_udp_handler.py:26-42 | the response afterwards is `ForNs` of the response before: NXDOMAIN off the zone, `SyntaxError` with the response untouched when a name server does not read, else the answer appended |
| UdpHandler.ResponseForSoaRecord | indisoluble/a_healthy_dns/dns_udp_handler.py:44-68 | the response afterwards is `ForSoa` of the response before: NXDOMAIN off the zone, `SyntaxError` with the response untouched when the SOA text does not read, else the answer appended |
| UdpHandler.Handle | indisoluble/a_healthy_dns/dns_udp_handler.py:70-98 | the message sent is `Serve` of the datagram: nothing for a datagram that does not parse, has QR set (`make_response` raises), or whose answer raises `SyntaxError` |
| UdpHandler.RepliesAreAuthoritative | indisoluble/a_healthy_dns/dns_udp_handler.py:70-98 | a reply exactly for a datagram that parses, has QR clear and has no question or one whose record text reads (`AnswerReads`); always with AA and QR, the query's id, question and RD |
| UdpHandler.NoQuestionFormerr | indisoluble/a_healthy_dns/dns_udp_handler.py:82-84 | no question gives a reply, FORMERR with an empty answer |
| UdpHandler.AAnswer | indisoluble/a_healthy_dns/dns_udp_handler.py:12-24 | a name not in `resolutions` gives NXDOMAIN with no answer; for a known one a reply exactly when every address reads, and then NOERROR with one RRset of exactly its addresses with TTL ttl_a |
| UdpHandler.ApexOnly | indisoluble/a_healthy_dns/dns_udp_handler.py:26-48 | NS and SOA queries for any name but the hosted zone give NXDOMAIN with no answer; a reply for the zone is NOERROR with one RRset owned by the query name |
| UdpHandler.NsAnswer | indisoluble/a_healthy_dns/dns_udp_handler.py:26-42 | for the zone, a reply exactly when every name server reads as a name, listing exactly them with TTL ttl_ns |
| UdpHandler.SoaAnswer | indisoluble/a_healthy_dns/dns_udp_handler.py:44-68 | for the zone, a reply exactly when the primary and `hostmaster.zone` read as names and serial, refresh, retry, expire and ttl_a fit 32 bits; then one SOA: primary NS, `hostmaster.zone`, the server's serial, refresh, retry, expire, and ttl_a as TTL and minimum |
| UdpHandler.OtherTypesNotImplemented | indisoluble/a_healthy_dns/dns_udp_handler.py:94-96 | any other type gives a reply, NOTIMP with no answer |
| UdpHandler.ConfiguredAddressesAnswered | indisoluble/a_healthy_dns/dns_udp_handler.py:12-24 | over a validated configuration, `sub.zone.` gets a reply exactly when each of its configured addresses is already normalised (no leading zeros), and then exactly those addresses |
| UdpHandler.ConfiguredNameServersAnswered | indisoluble/a_healthy_dns/dns_udp_handler.py:26-42 | over a validated configuration, the zone's NS query gets a reply exactly when `from_text` makes a name of every name server, and then exactly the absolute names |
| UdpHandler.ConfiguredSoaAnswered | indisoluble/a_healthy_dns/dns_udp_handler.py:44-68 | over a validated configuration, the zone's SOA query gets a reply exactly when `from_text` makes names of the first name server and `hostmaster.zone` and serial, refresh, retry, expire and ttl_a fit 32 bits |

## Left out

- **The threaded updater** (`dns_server_zone_updater_threated.py`): a thread, an event and sleeps. Concurrency is its whole content.
- **The TCP probe** (`tcp_connectivity_tester.py`, `tools/can_create_connection.py`): socket I/O. The updater takes the probe as a `(ip, port) -> bool` oracle.
- **The entry point and packaging** (`main.py`, `setup.py`): argument parsing, logging set-up and the socket server.
- **All logging**, everywhere.
- **`json.loads` and PEM file reading**: configuration input is the `Json` datatype after decoding. Key loading and key building are oracles returning a key or failing.
- **Inside dnspython**:
  - Wire parsing and `to_wire` are abstracted: a datagram is given as its parse outcome, and the reply is the value sent.
  - The zone-file tokenizer is approximated: a field holding whitespace, `"`, `(`, `)`, `;`, `\` or a non-ASCII character is refused outright. dnspython reads some such text: comments, parentheses, escapes, IDNA names, and SOA fields split again at the whitespace inside them. Every name and number the servers write is a plain word, so none of this is reached from a configuration the validators accept.
  - The reader/writer snapshots of `dns.versioned.Zone`: a rebuild is one atomic replacement of the zone's value.
  - `dns.dnssec.sign_zone` and all cryptography: a signature is the value `ZoneSignature(dnskey TTL, inception, expiration)`.
- **Floating-point time and `datetime`**: the clock, resign time and expiration are integer seconds.
- **Case-insensitive comparison of DNS names** is not modelled: names compare by their exact labels.
- **Unicode behaviour of `isdigit` and `isalnum`**: the model counts only ASCII digits and letters.
- **`DNSServerConfig.make_config`** (`dns_server_config.py:166-196`): it only combines `json.loads` with the wall-clock serial. The model starts from its decoded arguments, at `ServerConfig.New`.
- **UdpHandler.ServerFor**: the legacy handler reads attributes of its server object that no file of this model sets. `ServerFor` is the assumed wiring from a validated configuration, used only by `UdpHandler.ConfiguredAddressesAnswered`, `UdpHandler.ConfiguredNameServersAnswered` and `UdpHandler.ConfiguredSoaAnswered`.
- **AHealthyIps.UpdatedStatus**, **HealthyIps.UpdatedStatus**, **AHealthyRecords.UpdatedIps**: object identity is not modelled. "Returns `self`" is stated as "returns an equal value".
- **ZoneUpdater.DnsServerZoneUpdater.Init**, **ZoneUpdater.DnsServerZoneUpdater.New**: they require what `ZoneUpdater.UpdaterReady` states: an absolute origin, valid addresses, and records strictly below the origin with distinct subdomains. The source checks none of this. `ZoneUpdater.ConfigFitsUpdater` proves that every configuration `make_config` builds from decoded JSON meets it. The model keeps it as a precondition instead of a type invariant.
- **ServerUdpHandler.AnswerIffStored**, **ServerUdpHandler.Lookup**: a signed zone is summarised by its `signature` value. The DNSKEY, RRSIG and NSEC sets that `dns.dnssec.sign_zone` adds to the nodes are not stored there. A query for one of those types is therefore NXDOMAIN in the model, where the source would answer it.
- **UdpHandler.Handle**, **ServerUdpHandler.Handle**: `to_wire` failures are not modelled. These are a relative name, a TTL outside 32 bits, and a message too big for a datagram; each would raise while sending.
- **ARecords.MakeARecord**: it returns `Option` and cannot raise, because the updater only builds it from addresses that passed the `AHealthyIp` constructor. `ARecords.AddressesAreValid` proves that the A parser reads all of them.
- **Json.Get**: an object is the decoded dictionary's items, so its keys are distinct. For a key repeated in the JSON text, `json.loads` keeps the last value at the first key's position; that decoding is not modelled. `Get` returns the first match, which is the only one when keys are distinct (`Json.GetFindsStored`).
- **ZoneUpdater.DnsServerZoneUpdater.RefreshARecord**: the abort callback is an oracle indexed by the probe call. The model has no wall clock between calls.

## Findings

| source | as written | input that shows it | evidently intended | confidence | as-written member | corrected member |
|---|---|---|---|---|---|---|
| indisoluble/a_healthy_dns/dns_server_config_factory.py:96-100 | `HealthyARecord(subdomain_name, healthy_ips)` is called with two arguments where the class takes three, `(subdomain, ttl_a, healthy_ips)`: `healthy_ips` fills the `ttl_a` slot and `healthy_ips` itself is missing, so every entry that passes all checks raises `TypeError` | resolutions `{"www": {"ips": ["192.168.1.1"], "health_port": 8080}}` under zone `example.com` | build the record the updater consumes, `AHealthyRecord(subdomain, healthy_ips)` | not executed | ConfigFactory.MakeHealthyARecordAsWritten | ConfigFactory.MakeHealthyARecord |
| indisoluble/a_healthy_dns/dns_server_config_factory.py:152-161 | `abs_name_servers = []` is a list, yet the loop calls `abs_name_servers.add(f"{ns}.")`, so the first valid name server raises `AttributeError` | name servers `["ns1.example.com"]` | append each absolute name, in order | not executed | ConfigFactory.MakeNameServersAsWritten | ConfigFactory.MakeNameServers |
