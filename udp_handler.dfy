/** `DNSUDPHandler` (`dns_udp_handler.py`): the handler of the first server
    generation, which answers A, NS and SOA queries from attributes of the
    server object rather than from a zone. The socket is left out: a received
    datagram is given as its parse outcome and the sent message as the value
    `handle` returns. Each answer is read from record text: an address that
    `inet_aton` refuses, a name that does not read and a SOA number over 32 bits
    raise `SyntaxError`, which leaves `handle` before anything is sent. The
    owner of an answer is the query name whose text was looked up. */
module UdpHandler {
  import opened Wrappers
  import opened Names
  import opened Dns
  import opened Tools
  import opened RdataText
  import ServerConfig

  /** The server attributes the handler reads. */
  datatype LegacyServer = LegacyServer(
    resolutions: map<string, seq<string>>,
    hostedZone: string,
    nameServers: seq<string>,
    primaryNameServer: string,
    ttlA: int,
    ttlNs: int,
    soaSerial: int,
    soaRefresh: int,
    soaRetry: int,
    soaExpire: int)

  // ----- the answers --------------------------------------------------------

  /** `_response_for_a_record`: a name not in `resolutions` is NXDOMAIN; a known
      one is answered with all its addresses and TTL `ttl_a`, unless one of them
      is not an address the A parser reads. */
  function ForA(reply: Reply, server: LegacyServer, qname: Name): Result<Reply>
  {
    var text := ToText(qname);
    if text !in server.resolutions then Ok(reply.(rcode := NXDOMAIN))
    else
      var ips := server.resolutions[text];
      if exists k | 0 <= k < |ips| :: !IsAddressText(ips[k]) then Raise(SyntaxError)
      else Ok(reply.(answer := reply.answer + [RRset(qname, IN, A, server.ttlA, set ip | ip in ips :: Address(ip))]))
  }

  /** `_response_for_ns_record`: only the hosted zone has name servers, and each
      must read as a name. */
  function ForNs(reply: Reply, server: LegacyServer, qname: Name): Result<Reply>
  {
    if ToText(qname) != server.hostedZone then Ok(reply.(rcode := NXDOMAIN))
    else if exists k | 0 <= k < |server.nameServers| :: RdataName(server.nameServers[k]).Raise? then Raise(SyntaxError)
    else
      var rdatas := set ns | ns in server.nameServers :: NameServer(ns);
      Ok(reply.(answer := reply.answer + [RRset(qname, IN, NS, server.ttlNs, rdatas)]))
  }

  /** The SOA text the handler reads: the primary name server, the hostmaster
      mailbox of the zone, the server's serial and timers, and `ttl_a` as the
      minimum. */
  predicate SoaTextReads(server: LegacyServer)
  {
    SoaParses(server.primaryNameServer, "hostmaster." + server.hostedZone, server.soaSerial,
              server.soaRefresh, server.soaRetry, server.soaExpire, server.ttlA)
  }

  /** The SOA record read from that text. */
  function SoaOf(server: LegacyServer): Rdata
  {
    Soa(server.primaryNameServer, "hostmaster." + server.hostedZone, server.soaSerial,
        server.soaRefresh, server.soaRetry, server.soaExpire, server.ttlA)
  }

  /** `_response_for_soa_record`: only the hosted zone has a SOA, served with TTL `ttl_a`. */
  function ForSoa(reply: Reply, server: LegacyServer, qname: Name): Result<Reply>
  {
    if ToText(qname) != server.hostedZone then Ok(reply.(rcode := NXDOMAIN))
    else if !SoaTextReads(server) then Raise(SyntaxError)
    else Ok(reply.(answer := reply.answer + [RRset(qname, IN, SOA, server.ttlA, {SoaOf(server)})]))
  }

  /** The dispatch on the type of the first question. */
  function Respond(reply: Reply, server: LegacyServer, q: Question): Result<Reply>
  {
    if q.rdtype == A then ForA(reply, server, q.name)
    else if q.rdtype == NS then ForNs(reply, server, q.name)
    else if q.rdtype == SOA then ForSoa(reply, server, q.name)
    else Ok(reply.(rcode := NOTIMP))
  }

  /** The response `handle` sends for a datagram, if any: none for a datagram
      that does not parse or that is itself a response, and none when reading
      the answer's record text raises. */
  function Serve(datagram: Datagram, server: LegacyServer): Option<Reply>
  {
    match datagram
    case Unparseable => None
    case Parsed(query) =>
      if query.flags.qr then None
      else
        var response := ResponseTo(query).(flags := Flags(true, true, query.flags.rd));
        if query.question == [] then Some(response.(rcode := FORMERR))
        else
          match Respond(response, server, query.question[0])
          case Raise(_) => None
          case Ok(reply) => Some(reply)
  }

  // ----- the handler --------------------------------------------------------

  method ResponseForARecord(response: Message, server: LegacyServer, qname: Name) returns (raised: Option<PyError>)
    modifies response
    ensures var out := ForA(old(response.Contents()), server, qname);
            (raised.None? <==> out.Ok?)
            && (out.Ok? ==> response.Contents() == out.value)
            && (out.Raise? ==> raised == Some(out.error) && response.Contents() == old(response.Contents()))
  {
    var text := ToText(qname);
    if text !in server.resolutions {
      response.SetRcode(NXDOMAIN);
      return None;
    }
    var ips := server.resolutions[text];
    if exists k | 0 <= k < |ips| :: !IsAddressText(ips[k]) {
      return Some(SyntaxError);
    }
    var rrset := RRset(qname, IN, A, server.ttlA, set ip | ip in ips :: Address(ip));
    response.AppendAnswer(rrset);
    return None;
  }

  method ResponseForNsRecord(response: Message, server: LegacyServer, qname: Name) returns (raised: Option<PyError>)
    modifies response
    ensures var out := ForNs(old(response.Contents()), server, qname);
            (raised.None? <==> out.Ok?)
            && (out.Ok? ==> response.Contents() == out.value)
            && (out.Raise? ==> raised == Some(out.error) && response.Contents() == old(response.Contents()))
  {
    if ToText(qname) != server.hostedZone {
      response.SetRcode(NXDOMAIN);
      return None;
    }
    if exists k | 0 <= k < |server.nameServers| :: RdataName(server.nameServers[k]).Raise? {
      return Some(SyntaxError);
    }
    var rrset := RRset(qname, IN, NS, server.ttlNs, set ns | ns in server.nameServers :: NameServer(ns));
    response.AppendAnswer(rrset);
    return None;
  }

  method ResponseForSoaRecord(response: Message, server: LegacyServer, qname: Name) returns (raised: Option<PyError>)
    modifies response
    ensures var out := ForSoa(old(response.Contents()), server, qname);
            (raised.None? <==> out.Ok?)
            && (out.Ok? ==> response.Contents() == out.value)
            && (out.Raise? ==> raised == Some(out.error) && response.Contents() == old(response.Contents()))
  {
    if ToText(qname) != server.hostedZone {
      response.SetRcode(NXDOMAIN);
      return None;
    }
    var mailbox := "hostmaster." + server.hostedZone;
    if !SoaParses(server.primaryNameServer, mailbox, server.soaSerial,
                  server.soaRefresh, server.soaRetry, server.soaExpire, server.ttlA) {
      return Some(SyntaxError);
    }
    var soa := Soa(server.primaryNameServer, mailbox, server.soaSerial,
                   server.soaRefresh, server.soaRetry, server.soaExpire, server.ttlA);
    response.AppendAnswer(RRset(qname, IN, SOA, server.ttlA, {soa}));
    return None;
  }

  /** `handle`: parse, make the response authoritative, answer the first question
      by its type or report FORMERR, and send. */
  method Handle(datagram: Datagram, server: LegacyServer) returns (sent: Option<Reply>)
    ensures sent == Serve(datagram, server)
  {
    if datagram.Unparseable? {
      return None;
    }
    var query := datagram.query;
    var made := Message.MakeResponse(query);
    if made.Raise? {
      // The `FormError` leaves `handle` uncaught, and nothing is sent.
      return None;
    }
    var response := made.value;
    response.SetAuthoritative();
    if query.question == [] {
      response.SetRcode(FORMERR);
    } else {
      var question := query.question[0];
      var raised := None;
      if question.rdtype == A {
        raised := ResponseForARecord(response, server, question.name);
      } else if question.rdtype == NS {
        raised := ResponseForNsRecord(response, server, question.name);
      } else if question.rdtype == SOA {
        raised := ResponseForSoaRecord(response, server, question.name);
      } else {
        response.SetRcode(NOTIMP);
      }
      if raised.Some? {
        // The `SyntaxError` leaves `handle` uncaught, and nothing is sent.
        return None;
      }
    }
    return Some(response.Contents());
  }

  // ----- what the handler promises -----------------------------------------

  /** The record text an answer to `q` reads, for the names that reach it: the
      addresses of a known name, the name servers and the SOA fields of the
      hosted zone. Other questions read none. */
  predicate AnswerReads(server: LegacyServer, q: Question)
  {
    var text := ToText(q.name);
    (q.rdtype == A && text in server.resolutions ==>
       forall k | 0 <= k < |server.resolutions[text]| :: IsAddressText(server.resolutions[text][k]))
    && (q.rdtype == NS && text == server.hostedZone ==>
          forall k | 0 <= k < |server.nameServers| :: RdataName(server.nameServers[k]).Ok?)
    && (q.rdtype == SOA && text == server.hostedZone ==> SoaTextReads(server))
  }

  /** A response is sent exactly for a datagram that parses as a query (QR
      clear) and either has no question or has one whose answer's record text
      reads; every response is authoritative and carries the query's id and
      question. */
  lemma RepliesAreAuthoritative(datagram: Datagram, server: LegacyServer)
    ensures Serve(datagram, server).Some?
            <==> datagram.Parsed? && !datagram.query.flags.qr
                 && (datagram.query.question == [] || AnswerReads(server, datagram.query.question[0]))
    ensures Serve(datagram, server).Some? ==>
              var r := Serve(datagram, server).value;
              r.flags == Flags(true, true, datagram.query.flags.rd)
              && r.id == datagram.query.id && r.question == datagram.query.question
  {
  }

  /** A query without a question is answered FORMERR with no answer. */
  lemma NoQuestionFormerr(query: Query, server: LegacyServer)
    requires !query.flags.qr && query.question == []
    ensures Serve(Parsed(query), server).Some?
    ensures Serve(Parsed(query), server).value.rcode == FORMERR
    ensures Serve(Parsed(query), server).value.answer == []
  {
  }

  /** An A query for a name whose text is not a key of `resolutions` is NXDOMAIN
      with no answer. For a key, a response is sent exactly when every address
      of the name reads; it is NOERROR and holds one set of exactly that name's
      addresses with TTL `ttl_a`. */
  lemma AAnswer(query: Query, server: LegacyServer)
    requires !query.flags.qr && query.question != [] && query.question[0].rdtype == A
    ensures var q := query.question[0];
            var r := Serve(Parsed(query), server);
            var text := ToText(q.name);
            (text !in server.resolutions ==> r.Some? && r.value.rcode == NXDOMAIN && r.value.answer == [])
            && (text in server.resolutions ==>
                  (r.Some? <==> forall k | 0 <= k < |server.resolutions[text]| :: IsAddressText(server.resolutions[text][k])))
            && (text in server.resolutions && r.Some? ==>
                  r.value.rcode == NOERROR
                  && |r.value.answer| == 1 && r.value.answer[0].name == q.name && r.value.answer[0].rdtype == A
                  && r.value.answer[0].ttl == server.ttlA
                  && forall d :: d in r.value.answer[0].rdatas <==>
                       exists k | 0 <= k < |server.resolutions[text]| :: d == Address(server.resolutions[text][k]))
  {
    var q := query.question[0];
    var text := ToText(q.name);
    if text in server.resolutions {
      var ips := server.resolutions[text];
      var rdatas := set ip | ip in ips :: Address(ip);
      forall d ensures d in rdatas <==> exists k | 0 <= k < |ips| :: d == Address(ips[k]) {
        if d in rdatas {
          var ip :| ip in ips && d == Address(ip);
          var k :| 0 <= k < |ips| && ips[k] == ip;
        }
      }
    }
  }

  /** NS and SOA queries are answered only for the hosted zone itself: any other
      name is NXDOMAIN with no answer, and a response for the zone is NOERROR
      with one set owned by the query name. */
  lemma ApexOnly(query: Query, server: LegacyServer)
    requires !query.flags.qr && query.question != [] && query.question[0].rdtype in {NS, SOA}
    ensures var r := Serve(Parsed(query), server);
            (ToText(query.question[0].name) != server.hostedZone ==>
               r.Some? && r.value.rcode == NXDOMAIN && r.value.answer == [])
            && (ToText(query.question[0].name) == server.hostedZone && r.Some? ==>
                  r.value.rcode == NOERROR && |r.value.answer| == 1 && r.value.answer[0].name == query.question[0].name)
  {
  }

  /** For the hosted zone, an NS response is sent exactly when every configured
      name server reads as a name, and it lists every one of them, with TTL
      `ttl_ns`. */
  lemma NsAnswer(query: Query, server: LegacyServer)
    requires !query.flags.qr && query.question != [] && query.question[0].rdtype == NS
    requires ToText(query.question[0].name) == server.hostedZone
    ensures var r := Serve(Parsed(query), server);
            (r.Some? <==> forall k | 0 <= k < |server.nameServers| :: RdataName(server.nameServers[k]).Ok?)
            && (r.Some? ==>
                  r.value.answer[0].rdtype == NS && r.value.answer[0].ttl == server.ttlNs
                  && forall d :: d in r.value.answer[0].rdatas <==>
                       exists k | 0 <= k < |server.nameServers| :: d == NameServer(server.nameServers[k]))
  {
    var rdatas := set ns | ns in server.nameServers :: NameServer(ns);
    forall d ensures d in rdatas <==> exists k | 0 <= k < |server.nameServers| :: d == NameServer(server.nameServers[k]) {
      if d in rdatas {
        var ns :| ns in server.nameServers && d == NameServer(ns);
        var k :| 0 <= k < |server.nameServers| && server.nameServers[k] == ns;
      }
    }
  }

  /** For the hosted zone, a SOA response is sent exactly when the SOA text
      reads, and it is the single record naming the primary name server and the
      zone's hostmaster, with the server's serial and timers, and `ttl_a` both as
      its TTL and as its minimum. */
  lemma SoaAnswer(query: Query, server: LegacyServer)
    requires !query.flags.qr && query.question != [] && query.question[0].rdtype == SOA
    requires ToText(query.question[0].name) == server.hostedZone
    ensures var r := Serve(Parsed(query), server);
            (r.Some? <==> RdataName(server.primaryNameServer).Ok?
                          && RdataName("hostmaster." + server.hostedZone).Ok?
                          && 0 <= server.soaSerial <= MaxUint32 && 0 <= server.soaRefresh <= MaxUint32
                          && 0 <= server.soaRetry <= MaxUint32 && 0 <= server.soaExpire <= MaxUint32
                          && 0 <= server.ttlA <= MaxUint32)
            && (r.Some? ==>
                  r.value.answer[0].rdtype == SOA && r.value.answer[0].ttl == server.ttlA
                  && r.value.answer[0].rdatas == {Soa(server.primaryNameServer, "hostmaster." + server.hostedZone,
                                                      server.soaSerial, server.soaRefresh, server.soaRetry,
                                                      server.soaExpire, server.ttlA)})
  {
  }

  /** Any type other than A, NS and SOA is NOTIMP with no answer. */
  lemma OtherTypesNotImplemented(query: Query, server: LegacyServer)
    requires !query.flags.qr && query.question != [] && query.question[0].rdtype !in {A, NS, SOA}
    ensures Serve(Parsed(query), server).Some?
    ensures Serve(Parsed(query), server).value.rcode == NOTIMP
    ensures Serve(Parsed(query), server).value.answer == []
  {
  }

  // ----- the handler over a validated configuration -------------------------

  /** A server whose attributes carry a configuration's absolute names and numbers. */
  function ServerFor(c: ServerConfig.DNSServerConfig): LegacyServer
    requires c.absNameServers != []
  {
    LegacyServer(c.absResolutions, c.absHostedZone, c.absNameServers, ServerConfig.PrimaryAbsNameServer(c),
                 c.ttlA, c.ttlNs, c.soaSerial, c.soaRefresh, c.soaRetry, c.soaExpire)
  }

  /** With a validated configuration, an A query whose text is `sub.zone.` for a
      configured subdomain is answered exactly when every configured address of
      it is written without leading zeros, and the answer holds those
      addresses. */
  lemma {:induction false} ConfiguredAddressesAnswered(a: ServerConfig.ConfigArgs, i: nat, query: Query)
    requires ServerConfig.Build(a).Ok?
    requires forall j, k | 0 <= j < k < |a.resolutions| :: a.resolutions[j].0 != a.resolutions[k].0
    requires !query.flags.qr && query.question != [] && query.question[0].rdtype == A
    requires i < |a.resolutions| && ToText(query.question[0].name) == ServerConfig.ResolutionKey(a.hostedZone, a.resolutions[i].0)
    ensures ServerConfig.Build(a).value.absNameServers != []
    ensures var r := Serve(Parsed(query), ServerFor(ServerConfig.Build(a).value));
            (r.Some? <==> forall k | 0 <= k < |a.resolutions[i].1| :: NormalizeIp(a.resolutions[i].1[k]) == a.resolutions[i].1[k])
            && (r.Some? ==>
                  r.value.rcode == NOERROR && |r.value.answer| == 1
                  && forall d :: d in r.value.answer[0].rdatas <==>
                       exists k | 0 <= k < |a.resolutions[i].1| :: d == Address(a.resolutions[i].1[k]))
  {
    ServerConfig.DerivedFields(a);
    ServerConfig.ResolutionsOfConfig(a);
    ServerConfig.AcceptedIff(a);
    var server := ServerFor(ServerConfig.Build(a).value);
    var ips := a.resolutions[i].1;
    assert server.resolutions[ToText(query.question[0].name)] == ips;
    assert ServerConfig.ValidResolution(a.resolutions[i]);
    forall k | 0 <= k < |ips| ensures IsAddressText(ips[k]) <==> NormalizeIp(ips[k]) == ips[k] {
      AddressTextIff(ips[k]);
    }
    AAnswer(query, server);
  }

  /** With a validated configuration, an NS query for `zone.` is answered exactly
      when `from_text` makes a name of every configured name server, and the
      answer lists every one of them made absolute. */
  lemma {:induction false} ConfiguredNameServersAnswered(a: ServerConfig.ConfigArgs, query: Query)
    requires ServerConfig.Build(a).Ok?
    requires !query.flags.qr && query.question != [] && query.question[0].rdtype == NS
    requires ToText(query.question[0].name) == a.hostedZone + "."
    ensures ServerConfig.Build(a).value.absNameServers != []
    ensures var r := Serve(Parsed(query), ServerFor(ServerConfig.Build(a).value));
            (r.Some? <==> forall k | 0 <= k < |a.nameServers| :: FromText(a.nameServers[k], Root).Ok?)
            && (r.Some? ==>
                  r.value.rcode == NOERROR && |r.value.answer| == 1
                  && forall d :: d in r.value.answer[0].rdatas <==>
                       exists k | 0 <= k < |a.nameServers| :: d == NameServer(a.nameServers[k] + "."))
  {
    ServerConfig.DerivedFields(a);
    ServerConfig.AcceptedIff(a);
    var server := ServerFor(ServerConfig.Build(a).value);
    assert server.nameServers == seq(|a.nameServers|, k requires 0 <= k < |a.nameServers| => a.nameServers[k] + ".");
    forall k | 0 <= k < |a.nameServers|
      ensures RdataName(server.nameServers[k]).Ok? <==> FromText(a.nameServers[k], Root).Ok?
    {
      AbsoluteNameText(a.nameServers[k]);
    }
    NsAnswer(query, server);
    ApexOnly(query, server);
  }

  /** With a validated configuration, a SOA query for `zone.` is answered exactly
      when `from_text` makes names of the first name server and of
      `hostmaster.zone`, and the serial, the timers and `ttl_a` fit in 32 bits. */
  lemma {:induction false} ConfiguredSoaAnswered(a: ServerConfig.ConfigArgs, query: Query)
    requires ServerConfig.Build(a).Ok?
    requires !query.flags.qr && query.question != [] && query.question[0].rdtype == SOA
    requires ToText(query.question[0].name) == a.hostedZone + "."
    ensures ServerConfig.Build(a).value.absNameServers != []
    ensures var r := Serve(Parsed(query), ServerFor(ServerConfig.Build(a).value));
            r.Some? <==> FromText(a.nameServers[0], Root).Ok? && FromText("hostmaster." + a.hostedZone, Root).Ok?
                         && a.soaSerial <= MaxUint32 && a.soaRefresh <= MaxUint32 && a.soaRetry <= MaxUint32
                         && a.soaExpire <= MaxUint32 && a.ttlA <= MaxUint32
  {
    ServerConfig.DerivedFields(a);
    ServerConfig.AcceptedIff(a);
    var server := ServerFor(ServerConfig.Build(a).value);
    assert server.primaryNameServer == a.nameServers[0] + ".";
    assert server.hostedZone == a.hostedZone + ".";
    AbsoluteNameText(a.nameServers[0]);
    HostmasterText(a.hostedZone);
    assert "hostmaster." + server.hostedZone == "hostmaster." + a.hostedZone + ".";
    SoaAnswer(query, server);
  }
}
