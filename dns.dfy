/** The parts of dnspython the server uses, reduced to values: record data,
    record sets, zone nodes, and the DNS message a handler fills in. Wire
    encoding and the text syntax of records are not modelled; a record's data
    is held as its fields. */
module Dns {
  import opened Wrappers
  import opened Names

  datatype RdataClass = IN

  datatype RdataType = A | NS | SOA | DNSKEY | RRSIG | NSEC | Other(code: int)

  /** One record's data. Names inside records are kept as their text. */
  datatype Rdata =
    | Address(ip: string)
    | NameServer(target: string)
    | Soa(mname: string, rname: string, serial: int, refresh: int, retry: int, expire: int, minimum: int)

  /** `dns.rdataset.Rdataset`: records of one class and type sharing a TTL. */
  datatype Rdataset = Rdataset(rdclass: RdataClass, rdtype: RdataType, ttl: int, rdatas: set<Rdata>)

  /** `dns.node.Node`: the record sets stored at one name, by type. */
  type Node = map<RdataType, Rdataset>

  /** The DNSKEY, RRSIG and NSEC records `dns.dnssec.sign_zone` adds, summarised by
      the key's TTL and the signatures' validity window. */
  datatype ZoneSignature = ZoneSignature(dnskeyTtl: int, inception: int, expiration: int)

  /** `dns.versioned.Zone` as of its latest committed version: nodes keyed by names
      relative to the origin, plus the signature records if the zone is signed. */
  datatype Zone = Zone(origin: Name, nodes: map<Name, Node>, signature: Option<ZoneSignature>)

  /** The name a transaction stores a node under: relative names as they are,
      absolute names below the origin relativised, anything else a `KeyError`. */
  function ZoneName(origin: Name, n: Name): (r: Result<Name>)
    ensures r.Ok? <==> !n.absolute || IsSubdomain(n, origin)
    ensures r.Ok? ==> !r.value.absolute
    ensures r.Ok? && n.absolute ==> Derelativize(r.value, origin) == n
    ensures r.Raise? ==> r.error == KeyError
  {
    if !n.absolute then Ok(n)
    else if IsSubdomain(n, origin) then Ok(Relativize(n, origin))
    else Raise(KeyError)
  }

  /** `txn.add(name, rdataset)`: a set of a type the node already holds is merged
      into it, keeping the smaller TTL; otherwise it is stored as given. */
  function AddRdataset(nodes: map<Name, Node>, n: Name, rds: Rdataset): (r: map<Name, Node>)
    ensures r.Keys == nodes.Keys + {n}
    ensures forall m | m in nodes && m != n :: r[m] == nodes[m]
    ensures r[n].Keys == (if n in nodes then nodes[n].Keys else {}) + {rds.rdtype}
    ensures n !in nodes || rds.rdtype !in nodes[n] ==> r[n][rds.rdtype] == rds
    ensures n in nodes && rds.rdtype in nodes[n] ==>
              r[n][rds.rdtype].rdatas == nodes[n][rds.rdtype].rdatas + rds.rdatas
    ensures forall t | t in r[n] && t != rds.rdtype :: r[n][t] == nodes[n][t]
  {
    var node := if n in nodes then nodes[n] else map[];
    var stored :=
      if rds.rdtype in node then
        var held := node[rds.rdtype];
        held.(ttl := if rds.ttl < held.ttl then rds.ttl else held.ttl, rdatas := held.rdatas + rds.rdatas)
      else rds;
    nodes[n := node[rds.rdtype := stored]]
  }

  /** `dns.rrset.RRset`: a record set with its owner name, as it goes in a message. */
  datatype RRset = RRset(name: Name, rdclass: RdataClass, rdtype: RdataType, ttl: int, rdatas: set<Rdata>)

  datatype Rcode = NOERROR | FORMERR | NXDOMAIN | NOTIMP

  datatype Question = Question(name: Name, rdtype: RdataType)

  /** The header flags the handlers read or set. */
  datatype Flags = Flags(qr: bool, aa: bool, rd: bool)

  /** A query as `dns.message.from_wire` returns it. */
  datatype Query = Query(id: int, flags: Flags, question: seq<Question>)

  /** A received datagram: either it parses or `from_wire` raises. */
  datatype Datagram = Unparseable | Parsed(query: Query)

  /** What goes back on the wire: the response message as it stood when sent. */
  datatype Reply = Reply(id: int, flags: Flags, rcode: Rcode, question: seq<Question>, answer: seq<RRset>)

  /** The response `make_response` starts from: same id and question, QR set,
      RD copied, AA clear, NOERROR and no answer. */
  function ResponseTo(query: Query): (r: Reply)
    ensures r.id == query.id && r.question == query.question && r.answer == []
    ensures r.flags.qr && !r.flags.aa && r.flags.rd == query.flags.rd && r.rcode == NOERROR
  {
    Reply(query.id, Flags(true, false, query.flags.rd), NOERROR, query.question, [])
  }

  /** `dns.message.Message` for a response under construction. */
  class Message {
    var id: int
    var flags: Flags
    var rcode: Rcode
    var question: seq<Question>
    var answer: seq<RRset>

    /** The message as it would be sent now. */
    function Contents(): (r: Reply)
      reads this
      ensures r.rcode == rcode && r.answer == answer && r.flags == flags
    {
      Reply(id, flags, rcode, question, answer)
    }

    /** A fresh response to `query`: same id and question, QR set, RD copied, no answer. */
    constructor Init(query: Query)
      ensures Contents() == ResponseTo(query)
    {
      id := query.id;
      flags := Flags(true, false, query.flags.rd);
      rcode := NOERROR;
      question := query.question;
      answer := [];
    }

    /** `dns.message.make_response(query)`: a message that is already a response
        (QR set) raises `FormError`; any other gets a fresh response. */
    static method MakeResponse(query: Query) returns (r: Result<Message>)
      ensures r.Raise? <==> query.flags.qr
      ensures r.Raise? ==> r.error == FormError
      ensures r.Ok? ==> fresh(r.value) && r.value.Contents() == ResponseTo(query)
    {
      if query.flags.qr {
        return Raise(FormError);
      }
      var m := new Message.Init(query);
      return Ok(m);
    }

    /** `response.flags |= dns.flags.AA`. */
    method SetAuthoritative()
      modifies this
      ensures Contents() == old(Contents()).(flags := old(flags).(aa := true))
    {
      flags := flags.(aa := true);
    }

    /** `response.set_rcode(rcode)`. */
    method SetRcode(r: Rcode)
      modifies this
      ensures Contents() == old(Contents()).(rcode := r)
    {
      rcode := r;
    }

    /** `response.answer.append(rrset)`. */
    method AppendAnswer(rrset: RRset)
      modifies this
      ensures Contents() == old(Contents()).(answer := old(answer) + [rrset])
    {
      answer := answer + [rrset];
    }
  }
}
