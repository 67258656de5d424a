/** `DnsServerUdpHandler` (`dns_server_udp_handler.py`): the handler of the
    current server generation, which answers every query from the zone the
    updater maintains. The socket is left out: a received datagram is given as
    its parse outcome and the sent message as the value `handle` returns. */
module ServerUdpHandler {
  import opened Wrappers
  import opened Names
  import opened Dns
  import opened AHealthyRecords
  import opened ARecords
  import ZoneUpdater

  // ----- the lookup ---------------------------------------------------------

  /** The node `_update_response` reads: a relative name is looked up as it is,
      an absolute name below the origin relative to the origin, and any other
      name gives no node. */
  function LookupNode(zone: Zone, qname: Name): (r: Option<Node>)
    ensures r.Some? ==> !qname.absolute || IsSubdomain(qname, zone.origin)
  {
    match ZoneName(zone.origin, qname)
    case Raise(_) => None
    case Ok(key) => if key in zone.nodes then Some(zone.nodes[key]) else None
  }

  /** The set the queried type finds there. A node without sets is false in
      Python, as is an empty set, and both count as not found. */
  function Lookup(zone: Zone, qname: Name, qtype: RdataType): Option<Rdataset>
  {
    match LookupNode(zone, qname)
    case None => None
    case Some(node) =>
      if node == map[] || qtype !in node || node[qtype].rdatas == {} then None
      else Some(node[qtype])
  }

  /** What `_update_response` does to the response: NXDOMAIN when nothing is
      found, otherwise one more answer, owned by the query name and copying the
      stored set's class, type, TTL and records. */
  function Updated(reply: Reply, zone: Zone, qname: Name, qtype: RdataType): Reply
  {
    match Lookup(zone, qname, qtype)
    case None => reply.(rcode := NXDOMAIN)
    case Some(rds) => reply.(answer := reply.answer + [RRset(qname, rds.rdclass, rds.rdtype, rds.ttl, rds.rdatas)])
  }

  /** The response `handle` sends for a datagram, if any: none for a datagram
      that does not parse or that is itself a response. */
  function Serve(datagram: Datagram, zone: Zone): Option<Reply>
  {
    match datagram
    case Unparseable => None
    case Parsed(query) =>
      if query.flags.qr then None
      else
        var response := ResponseTo(query).(flags := Flags(true, true, query.flags.rd));
        if query.question != [] then
          Some(Updated(response, zone, query.question[0].name, query.question[0].rdtype))
        else
          Some(response.(rcode := FORMERR))
  }

  // ----- the handler --------------------------------------------------------

  /** `_update_response`, filling the answer set one record at a time. */
  method UpdateResponse(response: Message, qname: Name, qtype: RdataType, zone: Zone)
    modifies response
    ensures response.Contents() == Updated(old(response.Contents()), zone, qname, qtype)
  {
    var node: Option<Node> := None;
    if !qname.absolute {
      node := if qname in zone.nodes then Some(zone.nodes[qname]) else None;
    } else if IsSubdomain(qname, zone.origin) {
      var key := Relativize(qname, zone.origin);
      node := if key in zone.nodes then Some(zone.nodes[key]) else None;
    }
    assert node == LookupNode(zone, qname);
    if node.None? || node.value == map[] {
      response.SetRcode(NXDOMAIN);
      return;
    }
    var rdataset: Option<Rdataset> := if qtype in node.value then Some(node.value[qtype]) else None;
    if rdataset.None? || rdataset.value.rdatas == {} {
      response.SetRcode(NXDOMAIN);
      return;
    }
    var stored := rdataset.value;
    var rrset := RRset(qname, stored.rdclass, stored.rdtype, stored.ttl, {});
    var remaining := stored.rdatas;
    while remaining != {}
      invariant rrset == RRset(qname, stored.rdclass, stored.rdtype, stored.ttl, stored.rdatas - remaining)
      invariant remaining <= stored.rdatas
      decreases remaining
    {
      var rdata :| rdata in remaining;
      rrset := rrset.(rdatas := rrset.rdatas + {rdata});
      remaining := remaining - {rdata};
    }
    assert stored.rdatas - remaining == stored.rdatas;
    assert Lookup(zone, qname, qtype) == Some(stored);
    response.AppendAnswer(rrset);
  }

  /** `handle`: parse, make the response authoritative, answer the first question
      or report FORMERR, and send. */
  method Handle(datagram: Datagram, zone: Zone) returns (sent: Option<Reply>)
    ensures sent == Serve(datagram, zone)
  {
    if datagram.Unparseable? {
      return None;
    }
    var query := datagram.query;
    var made := Message.MakeResponse(query);
    if made.Raise? {
      // The `FormError` leaves `handle` uncaught, and nothing is sent.
      return None;
    }
    var response := made.value;
    response.SetAuthoritative();
    if query.question != [] {
      var question := query.question[0];
      UpdateResponse(response, question.name, question.rdtype, zone);
    } else {
      response.SetRcode(FORMERR);
    }
    return Some(response.Contents());
  }

  // ----- what the handler promises -----------------------------------------

  /** A reply is sent exactly for a datagram that parses as a query (QR clear),
      and it is authoritative, a response, with the query's id, question and RD
      flag. */
  lemma RepliesAreAuthoritative(datagram: Datagram, zone: Zone)
    ensures Serve(datagram, zone).Some? <==> datagram.Parsed? && !datagram.query.flags.qr
    ensures Serve(datagram, zone).Some? ==>
              var r := Serve(datagram, zone).value;
              r.flags == Flags(true, true, datagram.query.flags.rd)
              && r.id == datagram.query.id && r.question == datagram.query.question
  {
  }

  /** A query without a question is answered FORMERR with no answer, whatever the zone. */
  lemma NoQuestionFormerr(query: Query, zone: Zone)
    requires !query.flags.qr && query.question == []
    ensures Serve(Parsed(query), zone).value.rcode == FORMERR
    ensures Serve(Parsed(query), zone).value.answer == []
  {
  }

  /** Only the first question is read: queries that agree on it get the same
      code and answer. */
  lemma FirstQuestionDecides(q1: Query, q2: Query, zone: Zone)
    requires !q1.flags.qr && !q2.flags.qr && q1.question != [] && q2.question != [] && q1.question[0] == q2.question[0]
    ensures Serve(Parsed(q1), zone).value.rcode == Serve(Parsed(q2), zone).value.rcode
    ensures Serve(Parsed(q1), zone).value.answer == Serve(Parsed(q2), zone).value.answer
  {
  }

  /** The node found, stated without the lookup's branches: a relative name is a
      key itself, an absolute name is found under the key that places it below the
      origin. A zone's origin is always absolute. */
  lemma {:induction false} LookupNodeIff(zone: Zone, qname: Name)
    requires zone.origin.absolute
    ensures !qname.absolute ==> LookupNode(zone, qname) == (if qname in zone.nodes then Some(zone.nodes[qname]) else None)
    ensures qname.absolute ==>
              (LookupNode(zone, qname).Some? <==>
                 exists key | key in zone.nodes :: !key.absolute && Derelativize(key, zone.origin) == qname)
    ensures forall key | key in zone.nodes && !key.absolute && Derelativize(key, zone.origin) == qname ::
              LookupNode(zone, qname) == Some(zone.nodes[key])
  {
    forall key | key in zone.nodes && !key.absolute && Derelativize(key, zone.origin) == qname
      ensures LookupNode(zone, qname) == Some(zone.nodes[key])
    {
      assert IsSubdomain(qname, zone.origin);
      assert Relativize(qname, zone.origin).labels == key.labels;
    }
    if qname.absolute && LookupNode(zone, qname).Some? {
      var key := Relativize(qname, zone.origin);
      RelativizeRoundTrip(qname, zone.origin);
      assert key in zone.nodes && Derelativize(key, zone.origin) == qname;
    }
  }

  /** With a question, the reply is NOERROR exactly when a non-empty set of the
      queried type is stored at the name, and then it holds that one set, owned by
      the query name; otherwise it is NXDOMAIN with no answer. */
  lemma {:induction false} AnswerIffStored(query: Query, zone: Zone)
    requires !query.flags.qr && query.question != []
    ensures var q := query.question[0];
            var r := Serve(Parsed(query), zone).value;
            (r.rcode == NOERROR <==> Lookup(zone, q.name, q.rdtype).Some?)
            && (r.rcode == NOERROR || r.rcode == NXDOMAIN)
            && (r.rcode == NXDOMAIN ==> r.answer == [])
            && (r.rcode == NOERROR ==>
                  var rds := Lookup(zone, q.name, q.rdtype).value;
                  r.answer == [RRset(q.name, rds.rdclass, rds.rdtype, rds.ttl, rds.rdatas)] && rds.rdatas != {})
  {
  }

  /** An absolute name outside the zone, or a name with no node, is NXDOMAIN; so
      is a node that lacks the queried type. */
  lemma MissesAreNxdomain(zone: Zone, qname: Name, qtype: RdataType, reply: Reply)
    ensures qname.absolute && !IsSubdomain(qname, zone.origin) ==>
              Updated(reply, zone, qname, qtype) == reply.(rcode := NXDOMAIN)
    ensures LookupNode(zone, qname).Some? && qtype !in LookupNode(zone, qname).value ==>
              Updated(reply, zone, qname, qtype) == reply.(rcode := NXDOMAIN)
    ensures LookupNode(zone, qname).None? ==> Updated(reply, zone, qname, qtype) == reply.(rcode := NXDOMAIN)
  {
  }

  // ----- the handler over the zone the updater builds ------------------------

  /** After a rebuild, an A query for the absolute name of a record with a
      healthy address is answered with exactly that record's healthy addresses
      and the TTL the time policy gives A sets. */
  lemma {:induction false} HealthyRecordsAnswered(c: ZoneUpdater.UpdaterConfig, st: ZoneUpdater.UpdaterState,
                                                  soaClock: int, signClock: int, i: nat, query: Query)
    requires c.nsRec.rdtype == NS
    requires st.zone.origin.absolute && ZoneUpdater.RecordsPlaced(st.zone.origin, st.aRecs)
    requires ZoneUpdater.RecreateSpec(c, st, soaClock, signClock).1.Ok?
    requires i < |st.aRecs| && ZoneUpdater.Served(c.maxInterval, st.aRecs[i])
    requires !query.flags.qr && query.question != [] && query.question[0] == Question(st.aRecs[i].subdomain, A)
    ensures var zone := ZoneUpdater.RecreateSpec(c, st, soaClock, signClock).0.zone;
            var r := Serve(Parsed(query), zone).value;
            r.rcode == NOERROR && |r.answer| == 1
            && r.answer[0].name == st.aRecs[i].subdomain && r.answer[0].rdtype == A
            && r.answer[0].ttl == 2 * c.maxInterval
            && forall d :: d in r.answer[0].rdatas <==>
                 exists a :: a in st.aRecs[i].healthyIps && a.isHealthy && d == Address(a.ip)
  {
    ZoneUpdater.RebuildContent(c, st, soaClock, signClock);
    var zone := ZoneUpdater.RecreateSpec(c, st, soaClock, signClock).0.zone;
    var rec := st.aRecs[i];
    var key := Relativize(rec.subdomain, zone.origin);
    var rds := MakeARecord(c.maxInterval, rec).value;
    assert zone.origin == st.zone.origin;
    assert rec.subdomain.absolute && IsSubdomain(rec.subdomain, zone.origin);
    assert zone.nodes[key] == map[A := rds];
    assert LookupNode(zone, rec.subdomain) == Some(zone.nodes[key]);
    assert rds.rdatas != {} && rds.rdtype == A;
    assert A in zone.nodes[key] && zone.nodes[key] != map[];
    assert Lookup(zone, rec.subdomain, A) == Some(rds);
    AnswerIffStored(query, zone);
  }
}
