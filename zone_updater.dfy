/** `dns_server_zone_updater.py`: keeps the served zone in step with the health
    of the configured addresses. Each update probes every address (unless told
    not to), and rebuilds the zone when a status changed, when the signatures are
    due for renewal, or when the zone has never been built. The TCP probe, the
    abort callback and the clock are parameters: `probe(ip, port)` is the probe's
    verdict, `shouldAbort(k)` is what the callback answers on its k-th call during
    one update, and every clock reading is an argument in integer seconds. */
module ZoneUpdater {
  import opened Wrappers
  import opened Names
  import opened Dns
  import opened Time
  import opened AHealthyIps
  import opened AHealthyRecords
  import opened ARecords
  import opened NsRecords
  import opened SoaRecords
  import opened RdataText
  import opened FactoryCommon
  import opened Dnssec
  import opened ConfigFactory
  import Json

  const MinIntervalError := "Minimum interval must be positive"
  const TimeoutError := "Connection timeout must be positive"
  const DeltaPerRecordSign := 2
  const DeltaPerRecordManagement := 1

  /** Every address of a record went through the `AHealthyIp` constructor. */
  predicate IpsValid(rec: AHealthyRecord)
  {
    forall a | a in rec.healthyIps :: Valid(a)
  }

  predicate AllIpsValid(recs: seq<AHealthyRecord>)
  {
    forall i | 0 <= i < |recs| :: IpsValid(recs[i])
  }

  // ----- _calculate_max_interval ------------------------------------------

  /** The number of addresses over all records. */
  function TotalIps(recs: seq<AHealthyRecord>): nat
  {
    if recs == [] then 0 else TotalIps(recs[..|recs| - 1]) + |recs[|recs| - 1].healthyIps|
  }

  /** `sum(len(record.healthy_ips) * connection_timeout + delta_per_record for record in a_records)`. */
  function LoopDuration(recs: seq<AHealthyRecord>, timeout: int, delta: int): int
  {
    if recs == [] then 0
    else LoopDuration(recs[..|recs| - 1], timeout, delta) + (|recs[|recs| - 1].healthyIps| * timeout + delta)
  }

  lemma {:induction false} LoopDurationClosedForm(recs: seq<AHealthyRecord>, timeout: int, delta: int)
    ensures LoopDuration(recs, timeout, delta) == timeout * TotalIps(recs) + delta * |recs|
    decreases |recs|
  {
    if recs != [] {
      var init := recs[..|recs| - 1];
      LoopDurationClosedForm(init, timeout, delta);
      var n := |recs[|recs| - 1].healthyIps|;
      calc {
        LoopDuration(recs, timeout, delta);
        timeout * TotalIps(init) + delta * |init| + (n * timeout + delta);
        { assert timeout * (TotalIps(init) + n) == timeout * TotalIps(init) + timeout * n; }
        timeout * (TotalIps(init) + n) + delta * (|init| + 1);
      }
    }
  }

  /** The worst-case length of one probing pass — each address may take the full
      timeout, and each record costs 1 second more, 3 when the zone is signed —
      but never less than `min_interval`. */
  function CalculateMaxInterval(minInterval: int, timeout: int, recs: seq<AHealthyRecord>, doSign: bool): (r: int)
    ensures r >= minInterval
    ensures var delta := if doSign then 3 else 1;
            var loop := timeout * TotalIps(recs) + delta * |recs|;
            r == if loop > minInterval then loop else minInterval
  {
    var delta := DeltaPerRecordManagement + if doSign then DeltaPerRecordSign else 0;
    var loop := LoopDuration(recs, timeout, delta);
    LoopDurationClosedForm(recs, timeout, delta);
    if loop > minInterval then loop else minInterval
  }

  // ----- refreshing the records --------------------------------------------

  datatype RefreshResult = NoChanges | Changes | Aborted

  /** The abort callback answers true on one of its calls numbered lo .. hi-1. */
  predicate AbortedBetween(shouldAbort: nat -> bool, lo: nat, hi: nat)
  {
    exists j: nat | lo <= j < hi :: shouldAbort(j)
  }

  /** Each address with its status set to the probe's verdict. */
  function ProbedSet(ips: set<AHealthyIp>, probe: (string, int) -> bool): set<AHealthyIp>
  {
    set a | a in ips :: UpdatedStatus(a, probe(a.ip, a.healthPort))
  }

  /** `_refresh_a_record` when it is not aborted: the record for the same
      subdomain whose addresses carry their probe's verdict. */
  function RefreshedRecord(rec: AHealthyRecord, probe: (string, int) -> bool): (r: AHealthyRecord)
    ensures r.subdomain == rec.subdomain
    ensures forall b | b in r.healthyIps :: b.isHealthy == probe(b.ip, b.healthPort)
  {
    AHealthyRecord(rec.subdomain, ProbedSet(rec.healthyIps, probe))
  }

  /** Probing keeps every address and port and loses none: each address reappears
      with its verdict, and each result comes from an address of the record. */
  lemma RefreshedRecordMembers(rec: AHealthyRecord, probe: (string, int) -> bool)
    ensures forall a | a in rec.healthyIps ::
              AHealthyIp(a.ip, a.healthPort, probe(a.ip, a.healthPort)) in RefreshedRecord(rec, probe).healthyIps
    ensures forall b | b in RefreshedRecord(rec, probe).healthyIps ::
              exists a :: a in rec.healthyIps && a.ip == b.ip && a.healthPort == b.healthPort
  {
    forall a | a in rec.healthyIps
      ensures AHealthyIp(a.ip, a.healthPort, probe(a.ip, a.healthPort)) in RefreshedRecord(rec, probe).healthyIps
    {
      assert UpdatedStatus(a, probe(a.ip, a.healthPort)) == AHealthyIp(a.ip, a.healthPort, probe(a.ip, a.healthPort));
    }
  }

  lemma ProbedSetAdd(ips: set<AHealthyIp>, a: AHealthyIp, probe: (string, int) -> bool)
    ensures ProbedSet(ips + {a}, probe) == ProbedSet(ips, probe) + {UpdatedStatus(a, probe(a.ip, a.healthPort))}
  {
  }

  lemma MembersAppend(xs: seq<AHealthyIp>, x: AHealthyIp)
    ensures Members(IpList(xs + [x])) == Members(IpList(xs)) + {x}
  {
  }

  lemma AbortedBetweenExtend(shouldAbort: nat -> bool, lo: nat, hi: nat)
    requires lo <= hi
    ensures AbortedBetween(shouldAbort, lo, hi + 1) <==> AbortedBetween(shouldAbort, lo, hi) || shouldAbort(hi)
  {
  }

  lemma StrictSubsetSmaller<T>(a: set<T>, b: set<T>)
    requires a <= b && a != b
    ensures |a| < |b|
  {
    var d := b - a;
    assert b == a + d && a * d == {};
    assert d != {};
  }

  /** One more address taken from those not yet probed. */
  lemma TakeOne<T>(all: set<T>, checked: set<T>, a: T)
    requires checked <= all && a in all - checked
    ensures checked + {a} <= all && |checked + {a}| == |checked| + 1
  {
  }

  /** One probe of `_refresh_a_record`'s loop keeps its bookkeeping. */
  lemma RefreshStep(rec: AHealthyRecord, checked: set<AHealthyIp>, a: AHealthyIp, updatedIps: seq<AHealthyIp>,
                    probe: (string, int) -> bool)
    requires checked <= rec.healthyIps && a in rec.healthyIps
    requires Members(IpList(updatedIps)) == ProbedSet(checked, probe)
    ensures Members(IpList(updatedIps + [UpdatedStatus(a, probe(a.ip, a.healthPort))])) == ProbedSet(checked + {a}, probe)
  {
    ProbedSetAdd(checked, a, probe);
    MembersAppend(updatedIps, UpdatedStatus(a, probe(a.ip, a.healthPort)));
  }

  /** An abort on one call of a range is an abort within the range. */
  lemma AbortedAt(shouldAbort: nat -> bool, lo: nat, k: nat, hi: nat)
    requires lo <= k < hi && shouldAbort(k)
    ensures AbortedBetween(shouldAbort, lo, hi)
  {
  }

  /** Once every address is probed, the list of results makes the refreshed record. */
  lemma RefreshDone(rec: AHealthyRecord, updatedIps: seq<AHealthyIp>, probe: (string, int) -> bool)
    requires Members(IpList(updatedIps)) == ProbedSet(rec.healthyIps, probe)
    ensures UpdatedIps(rec, IpList(updatedIps)) == RefreshedRecord(rec, probe)
  {
    ListIsNeverStored(rec, updatedIps);
  }

  lemma AbortedBetweenWiden(shouldAbort: nat -> bool, lo: nat, hi: nat, total: nat)
    requires hi <= total && AbortedBetween(shouldAbort, lo, hi)
    ensures AbortedBetween(shouldAbort, 0, total)
  {
  }

  /** Every record refreshed. */
  function Refreshed(recs: seq<AHealthyRecord>, probe: (string, int) -> bool): (rs: seq<AHealthyRecord>)
    ensures |rs| == |recs|
    ensures forall i | 0 <= i < |recs| :: rs[i] == RefreshedRecord(recs[i], probe)
  {
    seq(|recs|, i requires 0 <= i < |recs| => RefreshedRecord(recs[i], probe))
  }

  /** Refreshing keeps every address valid. */
  lemma RefreshedValid(recs: seq<AHealthyRecord>, probe: (string, int) -> bool)
    requires AllIpsValid(recs)
    ensures AllIpsValid(Refreshed(recs, probe))
  {
    forall i, b | 0 <= i < |recs| && b in Refreshed(recs, probe)[i].healthyIps ensures Valid(b) {
      RefreshedRecordMembers(recs[i], probe);
      var a :| a in recs[i].healthyIps && a.ip == b.ip && a.healthPort == b.healthPort;
    }
  }

  /** What `_refresh_a_recs` reports: aborted when the callback says so before any
      of the probes, otherwise whether some record's set of addresses changed. */
  function RefreshOutcome(recs: seq<AHealthyRecord>, shouldAbort: nat -> bool, probe: (string, int) -> bool)
    : RefreshResult
  {
    if AbortedBetween(shouldAbort, 0, TotalIps(recs)) then Aborted
    else if Changed(recs, probe, |recs|) then Changes
    else NoChanges
  }

  /** Probing changes the set of addresses of one of the first n records. */
  predicate Changed(recs: seq<AHealthyRecord>, probe: (string, int) -> bool, n: nat)
    requires n <= |recs|
  {
    exists j | 0 <= j < n :: RefreshedRecord(recs[j], probe).healthyIps != recs[j].healthyIps
  }

  lemma ChangedExtend(recs: seq<AHealthyRecord>, probe: (string, int) -> bool, n: nat)
    requires n < |recs|
    ensures Changed(recs, probe, n + 1)
            <==> Changed(recs, probe, n) || RefreshedRecord(recs[n], probe).healthyIps != recs[n].healthyIps
  {
  }

  /** One record of `_refresh_a_recs`'s loop probed without an abort keeps its bookkeeping. */
  lemma RefreshRecordsStep(recs: seq<AHealthyRecord>, probe: (string, int) -> bool, i: nat,
                           checkedRecs: seq<AHealthyRecord>)
    requires i < |recs|
    requires |checkedRecs| == i && forall j | 0 <= j < i :: checkedRecs[j] == RefreshedRecord(recs[j], probe)
    ensures var next := checkedRecs + [RefreshedRecord(recs[i], probe)];
            forall j | 0 <= j < i + 1 :: next[j] == RefreshedRecord(recs[j], probe)
  {
  }

  /** The probe calls of the first i + 1 records. */
  lemma TotalIpsStep(recs: seq<AHealthyRecord>, i: nat)
    requires i < |recs|
    ensures TotalIps(recs[..i + 1]) == TotalIps(recs[..i]) + |recs[i].healthyIps|
  {
    assert recs[..i + 1][..i] == recs[..i];
  }

  /** No abort in two adjacent ranges of calls is no abort in their union. */
  lemma NotAbortedJoin(shouldAbort: nat -> bool, lo: nat, mid: nat, hi: nat)
    requires lo <= mid <= hi
    requires !AbortedBetween(shouldAbort, lo, mid) && !AbortedBetween(shouldAbort, mid, hi)
    ensures !AbortedBetween(shouldAbort, lo, hi)
  {
  }

  /** An abort while probing record i is an abort within the whole pass. */
  lemma RefreshRecordsAborted(recs: seq<AHealthyRecord>, shouldAbort: nat -> bool, i: nat, calls: nat)
    requires i < |recs| && calls == TotalIps(recs[..i])
    requires AbortedBetween(shouldAbort, calls, calls + |recs[i].healthyIps|)
    ensures AbortedBetween(shouldAbort, 0, TotalIps(recs))
  {
    assert recs[..i + 1][..i] == recs[..i];
    TotalIpsPrefix(recs, i + 1);
    AbortedBetweenWiden(shouldAbort, calls, calls + |recs[i].healthyIps|, TotalIps(recs));
  }

  lemma {:induction false} TotalIpsPrefix(recs: seq<AHealthyRecord>, i: nat)
    requires i <= |recs|
    ensures TotalIps(recs[..i]) <= TotalIps(recs)
    decreases |recs|
  {
    if i < |recs| {
      assert recs[..|recs| - 1][..i] == recs[..i];
      TotalIpsPrefix(recs[..|recs| - 1], i);
    } else {
      assert recs[..i] == recs;
    }
  }

  // ----- rebuilding the zone -----------------------------------------------

  /** `_add_a_record_to_zone` on a transaction's nodes: nothing when no address is
      healthy, otherwise the A set stored under the subdomain. */
  function AddARecord(nodes: map<Name, Node>, origin: Name, maxInterval: int, rec: AHealthyRecord)
    : (r: Result<map<Name, Node>>)
    ensures MakeARecord(maxInterval, rec).None? ==> r == Ok(nodes)
    ensures MakeARecord(maxInterval, rec).Some? ==>
              (r.Ok? <==> ZoneName(origin, rec.subdomain).Ok?)
              && (r.Ok? ==> r.value == AddRdataset(nodes, ZoneName(origin, rec.subdomain).value,
                                                   MakeARecord(maxInterval, rec).value))
  {
    match MakeARecord(maxInterval, rec)
    case None => Ok(nodes)
    case Some(dataset) =>
      match ZoneName(origin, rec.subdomain)
      case Raise(e) => Raise(e)
      case Ok(n) => Ok(AddRdataset(nodes, n, dataset))
  }

  /** The loop of `_add_records_to_zone` over the records, in list order. */
  function AddARecords(nodes: map<Name, Node>, origin: Name, maxInterval: int, recs: seq<AHealthyRecord>)
    : Result<map<Name, Node>>
  {
    if recs == [] then Ok(nodes)
    else
      match AddARecords(nodes, origin, maxInterval, recs[..|recs| - 1])
      case Raise(e) => Raise(e)
      case Ok(m) => AddARecord(m, origin, maxInterval, recs[|recs| - 1])
  }

  /** A record of the list that is served: some address is healthy. */
  predicate Served(maxInterval: int, rec: AHealthyRecord)
  {
    MakeARecord(maxInterval, rec).Some?
  }

  /** Every subdomain lies strictly below the origin, and no two records share one. */
  predicate RecordsPlaced(origin: Name, recs: seq<AHealthyRecord>)
  {
    (forall i | 0 <= i < |recs| ::
       IsSubdomain(recs[i].subdomain, origin) && |recs[i].subdomain.labels| > |origin.labels|)
    && (forall i, j | 0 <= i < j < |recs| :: recs[i].subdomain != recs[j].subdomain)
  }

  /** The key of the last record is neither the apex nor the key of an earlier record. */
  lemma LastKeyFresh(origin: Name, recs: seq<AHealthyRecord>)
    requires origin.absolute && recs != [] && RecordsPlaced(origin, recs)
    ensures Relativize(recs[|recs| - 1].subdomain, origin) != Empty
    ensures forall i | 0 <= i < |recs| - 1 ::
              Relativize(recs[i].subdomain, origin) != Relativize(recs[|recs| - 1].subdomain, origin)
  {
    var last := recs[|recs| - 1];
    assert |Relativize(last.subdomain, origin).labels| > 0;
    forall i | 0 <= i < |recs| - 1
      ensures Relativize(recs[i].subdomain, origin) != Relativize(last.subdomain, origin)
    {
      RelativizeRoundTrip(recs[i].subdomain, origin);
      RelativizeRoundTrip(last.subdomain, origin);
    }
  }

  /** Adding the A records to the apex node alone succeeds, leaves the apex as it
      was, and adds only the keys of served records. */
  lemma {:induction false} AddARecordsKeys(apex: Node, origin: Name, maxInterval: int, recs: seq<AHealthyRecord>)
    requires origin.absolute
    requires RecordsPlaced(origin, recs)
    ensures AddARecords(map[Empty := apex], origin, maxInterval, recs).Ok?
    ensures var nodes := AddARecords(map[Empty := apex], origin, maxInterval, recs).value;
            Empty in nodes && nodes[Empty] == apex
            && forall n | n in nodes && n != Empty ::
                 exists i | 0 <= i < |recs| :: Served(maxInterval, recs[i])
                                               && n == Relativize(recs[i].subdomain, origin)
    decreases |recs|
  {
    if recs != [] {
      var init := recs[..|recs| - 1];
      assert RecordsPlaced(origin, init);
      AddARecordsKeys(apex, origin, maxInterval, init);
      LastKeyFresh(origin, recs);
      var m := AddARecords(map[Empty := apex], origin, maxInterval, init).value;
      var nodes := AddARecords(map[Empty := apex], origin, maxInterval, recs).value;
      forall n | n in nodes && n != Empty
        ensures exists i | 0 <= i < |recs| :: Served(maxInterval, recs[i]) && n == Relativize(recs[i].subdomain, origin)
      {
        if n in m {
          var i :| 0 <= i < |init| && Served(maxInterval, init[i]) && n == Relativize(init[i].subdomain, origin);
          assert recs[i] == init[i];
        }
      }
    }
  }

  /** A record whose key is not yet taken adds one node holding only its A set,
      or nothing when no address is healthy. */
  lemma AddFreshARecord(nodes: map<Name, Node>, origin: Name, maxInterval: int, rec: AHealthyRecord)
    requires origin.absolute && IsSubdomain(rec.subdomain, origin)
    requires Relativize(rec.subdomain, origin) !in nodes
    ensures AddARecord(nodes, origin, maxInterval, rec)
            == Ok(if Served(maxInterval, rec)
                  then nodes[Relativize(rec.subdomain, origin) := map[A := MakeARecord(maxInterval, rec).value]]
                  else nodes)
  {
  }

  /** What the records so far hold, for the first `k` records. */
  predicate ContentHeld(nodes: map<Name, Node>, origin: Name, maxInterval: int, recs: seq<AHealthyRecord>, k: nat)
    requires k <= |recs| && forall i | 0 <= i < |recs| :: IsSubdomain(recs[i].subdomain, origin)
  {
    forall i | 0 <= i < k && Served(maxInterval, recs[i]) ::
      var n := Relativize(recs[i].subdomain, origin);
      n in nodes && nodes[n] == map[A := MakeARecord(maxInterval, recs[i]).value]
  }

  /** Adding the last record to nodes that hold the earlier ones, under a fresh key. */
  lemma ContentStep(m: map<Name, Node>, origin: Name, maxInterval: int, recs: seq<AHealthyRecord>)
    requires origin.absolute && recs != [] && forall i | 0 <= i < |recs| :: IsSubdomain(recs[i].subdomain, origin)
    requires ContentHeld(m, origin, maxInterval, recs, |recs| - 1)
    requires Relativize(recs[|recs| - 1].subdomain, origin) !in m
    requires forall i | 0 <= i < |recs| - 1 ::
               Relativize(recs[i].subdomain, origin) != Relativize(recs[|recs| - 1].subdomain, origin)
    ensures AddARecord(m, origin, maxInterval, recs[|recs| - 1]).Ok?
    ensures ContentHeld(AddARecord(m, origin, maxInterval, recs[|recs| - 1]).value, origin, maxInterval, recs, |recs|)
  {
    AddFreshARecord(m, origin, maxInterval, recs[|recs| - 1]);
  }

  /** What the first records hold does not depend on the records after them. */
  lemma ContentHeldPrefix(nodes: map<Name, Node>, origin: Name, maxInterval: int, recs: seq<AHealthyRecord>)
    requires recs != [] && forall i | 0 <= i < |recs| :: IsSubdomain(recs[i].subdomain, origin)
    requires ContentHeld(nodes, origin, maxInterval, recs[..|recs| - 1], |recs| - 1)
    ensures ContentHeld(nodes, origin, maxInterval, recs, |recs| - 1)
  {
    assert forall i | 0 <= i < |recs| - 1 :: recs[..|recs| - 1][i] == recs[i];
  }

  /** Each served record's key holds only its A set. */
  lemma {:induction false} AddARecordsContent(apex: Node, origin: Name, maxInterval: int, recs: seq<AHealthyRecord>)
    requires origin.absolute
    requires RecordsPlaced(origin, recs)
    ensures AddARecords(map[Empty := apex], origin, maxInterval, recs).Ok?
    ensures ContentHeld(AddARecords(map[Empty := apex], origin, maxInterval, recs).value, origin, maxInterval, recs, |recs|)
    decreases |recs|
  {
    AddARecordsKeys(apex, origin, maxInterval, recs);
    if recs != [] {
      var init := recs[..|recs| - 1];
      var last := recs[|recs| - 1];
      assert RecordsPlaced(origin, init);
      AddARecordsContent(apex, origin, maxInterval, init);
      AddARecordsKeys(apex, origin, maxInterval, init);
      LastKeyFresh(origin, recs);
      var m := AddARecords(map[Empty := apex], origin, maxInterval, init).value;
      ContentHeldPrefix(m, origin, maxInterval, recs);
      assert Relativize(last.subdomain, origin) !in m by {
        assert forall i | 0 <= i < |init| :: init[i] == recs[i];
      }
      ContentStep(m, origin, maxInterval, recs);
    }
  }

  /** The nodes `_add_records_to_zone` puts into the cleared zone: NS and SOA at the
      apex, then the A sets. */
  function BuiltNodes(origin: Name, maxInterval: int, nsRec: Rdataset, soa: Rdataset, recs: seq<AHealthyRecord>)
    : Result<map<Name, Node>>
  {
    var apex := AddRdataset(AddRdataset(map[], Empty, nsRec), Empty, soa);
    AddARecords(apex, origin, maxInterval, recs)
  }

  /** `RRSigAction`: when to sign next, and the key generator. */
  datatype RRSigAction = RRSigAction(resign: int, iter: RRSigKeyIterator)

  /** `_sign_zone`: nothing without a key; otherwise the zone is signed with the
      next key, and the next signing time becomes that key's resign time. */
  function Sign(action: Option<RRSigAction>, signClock: int): (out: (Option<RRSigAction>, Option<ZoneSignature>))
    ensures action.None? ==> out == (None, None)
    ensures action.Some? ==>
              var k := NextKey(action.value.iter, signClock);
              out.0 == Some(RRSigAction(signClock + 20 * action.value.iter.maxInterval, action.value.iter))
              && out.1 == Some(ZoneSignature(k.key.dnskeyTtl, signClock, k.key.expiration))
  {
    match action
    case None => (None, None)
    case Some(a) =>
      var k := NextKey(a.iter, signClock);
      (Some(RRSigAction(k.resign, a.iter)), Some(ZoneSignature(k.key.dnskeyTtl, k.key.inception, k.key.expiration)))
  }

  /** What the updater fixes at construction. */
  datatype UpdaterConfig = UpdaterConfig(maxInterval: int, origin: Name, primaryNs: string, nsRec: Rdataset)

  /** What the updater changes: its records, the zone, the signing action, whether
      the zone was ever rebuilt, and the state of the SOA generator. */
  datatype UpdaterState = UpdaterState(
    aRecs: seq<AHealthyRecord>,
    zone: Zone,
    rrsigAction: Option<RRSigAction>,
    recreated: bool,
    soa: RecordState)

  /** `_recreate_zone`: the first transaction clears the zone and adds the records;
      if it raises (the SOA generator's error, or a subdomain outside the zone) it
      is rolled back, though the SOA generator has still moved on. The second
      transaction signs. The result is `Ok(true)` when the zone was rebuilt. */
  function RecreateSpec(c: UpdaterConfig, st: UpdaterState, soaClock: int, signClock: int)
    : (out: (UpdaterState, Result<bool>))
  {
    var soaStep := RecordStep(c.maxInterval, c.origin, c.primaryNs, st.soa, soaClock);
    match soaStep.1
    case Raise(e) => (st.(soa := soaStep.0), Raise(e))
    case Ok(soa) =>
      match BuiltNodes(st.zone.origin, c.maxInterval, c.nsRec, soa, st.aRecs)
      case Raise(e) => (st.(soa := soaStep.0), Raise(e))
      case Ok(nodes) =>
        var signed := Sign(st.rrsigAction, signClock);
        (UpdaterState(st.aRecs, Zone(st.zone.origin, nodes, signed.1), signed.0, true, soaStep.0), Ok(true))
  }

  /** `_is_zone_sign_near_to_expire`. */
  predicate NearToExpire(st: UpdaterState, now: int)
  {
    st.rrsigAction.Some? && now >= st.rrsigAction.value.resign
  }

  /** `_recreate_zone_after_refresh`. */
  function AfterRefreshSpec(c: UpdaterConfig, st: UpdaterState, shouldAbort: nat -> bool,
                            probe: (string, int) -> bool, now: int, soaClock: int, signClock: int)
    : (out: (UpdaterState, Result<bool>))
  {
    var outcome := RefreshOutcome(st.aRecs, shouldAbort, probe);
    if outcome == Aborted then (st, Ok(false))
    else
      var refreshed := st.(aRecs := Refreshed(st.aRecs, probe));
      if outcome == Changes || NearToExpire(refreshed, now) || !refreshed.recreated then
        RecreateSpec(c, refreshed, soaClock, signClock)
      else (refreshed, Ok(false))
  }

  /** `update(check_ips=..., should_abort=...)`. */
  function UpdateSpec(c: UpdaterConfig, st: UpdaterState, checkIps: bool, shouldAbort: nat -> bool,
                      probe: (string, int) -> bool, now: int, soaClock: int, signClock: int)
    : (out: (UpdaterState, Result<bool>))
  {
    if checkIps then AfterRefreshSpec(c, st, shouldAbort, probe, now, soaClock, signClock)
    else RecreateSpec(c, st, soaClock, signClock)
  }

  // ----- what an update does -----------------------------------------------

  /** An abort anywhere in the pass is reported as such; when no abort happens the
      outcome is a change exactly when some record's set of addresses differs, and
      every address carries its probe's verdict. */
  lemma RefreshOutcomeLaws(recs: seq<AHealthyRecord>, shouldAbort: nat -> bool, probe: (string, int) -> bool)
    ensures (RefreshOutcome(recs, shouldAbort, probe) == Aborted) <==> AbortedBetween(shouldAbort, 0, TotalIps(recs))
    ensures (RefreshOutcome(recs, shouldAbort, probe) == Changes)
            <==> !AbortedBetween(shouldAbort, 0, TotalIps(recs))
                 && exists i | 0 <= i < |recs| :: Refreshed(recs, probe)[i].healthyIps != recs[i].healthyIps
    ensures forall i, b | 0 <= i < |recs| && b in Refreshed(recs, probe)[i].healthyIps ::
              b.isHealthy == probe(b.ip, b.healthPort)
  {
  }

  /** A callback that answers true straight away aborts any pass that has an address to probe. */
  lemma AbortBeforeFirstProbe(recs: seq<AHealthyRecord>, shouldAbort: nat -> bool, probe: (string, int) -> bool)
    requires TotalIps(recs) > 0 && shouldAbort(0)
    ensures RefreshOutcome(recs, shouldAbort, probe) == Aborted
  {
    assert 0 <= 0 < TotalIps(recs) && shouldAbort(0);
  }

  /** A rebuild never reports "nothing done". */
  lemma RecreateReportsRebuild(c: UpdaterConfig, st: UpdaterState, soaClock: int, signClock: int)
    ensures RecreateSpec(c, st, soaClock, signClock).1 != Ok(false)
    ensures RecreateSpec(c, st, soaClock, signClock).1.Ok? ==> RecreateSpec(c, st, soaClock, signClock).0.recreated
  {
  }

  /** The rebuild decision of `_recreate_zone_after_refresh`: an abort changes
      nothing; otherwise the records are replaced and the zone is rebuilt exactly
      when a status changed, the signatures are due, or it was never built. */
  lemma RebuildDecision(c: UpdaterConfig, st: UpdaterState, shouldAbort: nat -> bool,
                        probe: (string, int) -> bool, now: int, soaClock: int, signClock: int)
    ensures var out := AfterRefreshSpec(c, st, shouldAbort, probe, now, soaClock, signClock);
            var outcome := RefreshOutcome(st.aRecs, shouldAbort, probe);
            var refreshed := st.(aRecs := Refreshed(st.aRecs, probe));
            (outcome == Aborted ==> out == (st, Ok(false)))
            && (out.1 != Ok(false)
                <==> outcome != Aborted && (outcome == Changes || NearToExpire(st, now) || !st.recreated))
            && (out.1 != Ok(false) ==> out == RecreateSpec(c, refreshed, soaClock, signClock))
            && (outcome != Aborted && out.1 == Ok(false) ==> out.0 == refreshed)
  {
    var refreshed := st.(aRecs := Refreshed(st.aRecs, probe));
    RecreateReportsRebuild(c, refreshed, soaClock, signClock);
  }

  /** `update(check_ips=False)` rebuilds whatever the probe or the callback would say. */
  lemma UpdateWithoutProbing(c: UpdaterConfig, st: UpdaterState, shouldAbort: nat -> bool,
                             probe: (string, int) -> bool, now: int, soaClock: int, signClock: int)
    ensures UpdateSpec(c, st, false, shouldAbort, probe, now, soaClock, signClock)
            == RecreateSpec(c, st, soaClock, signClock)
  {
  }

  /** The apex node the rebuild starts from. */
  lemma ApexNode(nsRec: Rdataset, soa: Rdataset)
    requires nsRec.rdtype == NS && soa.rdtype == SOA
    ensures AddRdataset(AddRdataset(map[], Empty, nsRec), Empty, soa) == map[Empty := map[NS := nsRec, SOA := soa]]
  {
    var once := AddRdataset(map[], Empty, nsRec);
    assert once == map[Empty := map[NS := nsRec]];
    var twice := AddRdataset(once, Empty, soa);
    assert twice[Empty] == map[NS := nsRec, SOA := soa];
  }

  /** What a rebuild leaves in the zone. The rebuild goes ahead exactly when the
      SOA generator is running, its serial generator yields, and the SOA text
      reads; the zone then holds the NS set and a SOA with the new serial at the
      apex and, elsewhere, exactly one node per record with a healthy address,
      holding only its A set; nothing of the earlier zone survives. When the
      generator raises, everything but the generator's own state is as before. */
  lemma RebuildContent(c: UpdaterConfig, st: UpdaterState, soaClock: int, signClock: int)
    requires c.nsRec.rdtype == NS
    requires st.zone.origin.absolute && RecordsPlaced(st.zone.origin, st.aRecs)
    ensures var out := RecreateSpec(c, st, soaClock, signClock);
            var step := RecordStep(c.maxInterval, c.origin, c.primaryNs, st.soa, soaClock);
            (out.1.Ok? <==> !st.soa.closed && SerialStep(st.soa.serial, soaClock).1.Ok?
                            && SoaRecord(c.maxInterval, c.origin, c.primaryNs, soaClock).Ok?)
            && (out.1.Raise? ==> out.0 == st.(soa := step.0) && out.1 == Raise(step.1.error))
            && (out.1.Ok? ==>
                  var nodes := out.0.zone.nodes;
                  out.0.zone.origin == st.zone.origin && out.0.aRecs == st.aRecs && out.0.soa == step.0
                  && Empty in nodes
                  && nodes[Empty] == map[NS := c.nsRec, SOA := SoaRecord(c.maxInterval, c.origin, c.primaryNs, soaClock).value]
                  && (forall n | n in nodes && n != Empty ::
                        exists i | 0 <= i < |st.aRecs| :: Served(c.maxInterval, st.aRecs[i])
                                                          && n == Relativize(st.aRecs[i].subdomain, st.zone.origin))
                  && (forall i | 0 <= i < |st.aRecs| && Served(c.maxInterval, st.aRecs[i]) ::
                        var n := Relativize(st.aRecs[i].subdomain, st.zone.origin);
                        n in nodes && nodes[n] == map[A := MakeARecord(c.maxInterval, st.aRecs[i]).value]))
  {
    var step := RecordStep(c.maxInterval, c.origin, c.primaryNs, st.soa, soaClock);
    if step.1.Ok? {
      var soa := step.1.value;
      var apex := map[NS := c.nsRec, SOA := soa];
      ApexNode(c.nsRec, soa);
      AddARecordsKeys(apex, st.zone.origin, c.maxInterval, st.aRecs);
      AddARecordsContent(apex, st.zone.origin, c.maxInterval, st.aRecs);
    }
  }

  /** The configured name servers, written as names with a trailing dot, make
      the NS record read exactly when every one of them is short enough for
      `from_text` to make a name of it. */
  lemma ConfiguredNameServersParse(nameServers: Json.JsonText)
    requires nameServers.Decoded? && nameServers.value.JArray?
    requires NameServersResult(nameServers).Ok? && NameServersResult(nameServers).value.Some?
    ensures var items := nameServers.value.items;
            (forall ns | ns in NameServersResult(nameServers).value.value :: RdataName(ns).Ok?)
            <==> forall i | 0 <= i < |items| :: items[i].JString? && FromText(items[i].s, Root).Ok?
  {
    NameServersLaws(nameServers);
    var items := nameServers.value.items;
    var servers := NameServersResult(nameServers).value.value;
    assert forall i | 0 <= i < |items| :: NameServerOk(items[i]);
    assert forall ns :: ns in servers <==> exists i | 0 <= i < |items| :: items[i].JString? && ns == items[i].s + ".";
    AbsoluteNames(items, servers);
  }

  /** The entries of a list of checked names, each followed by a dot, read as
      names exactly when `from_text` makes a name of each entry. */
  lemma AbsoluteNames(items: seq<Json.Json>, servers: set<string>)
    requires forall i | 0 <= i < |items| :: NameServerOk(items[i])
    requires forall ns :: ns in servers <==> exists i | 0 <= i < |items| :: items[i].JString? && ns == items[i].s + "."
    ensures (forall ns | ns in servers :: RdataName(ns).Ok?)
            <==> forall i | 0 <= i < |items| :: items[i].JString? && FromText(items[i].s, Root).Ok?
  {
    forall i | 0 <= i < |items|
      ensures items[i].JString? && items[i].s + "." in servers
      ensures RdataName(items[i].s + ".").Ok? <==> FromText(items[i].s, Root).Ok?
    {
      AbsoluteNameText(items[i].s);
    }
    if forall i | 0 <= i < |items| :: items[i].JString? && FromText(items[i].s, Root).Ok? {
      forall ns | ns in servers ensures RdataName(ns).Ok? {
        var i :| 0 <= i < |items| && items[i].JString? && ns == items[i].s + ".";
      }
    }
  }

  /** Signing follows the key: a rebuild signs exactly when a key is configured,
      with the key's TTL and a window opening at the signing clock, and the next
      resign time is 20 update intervals later. */
  lemma SigningRules(c: UpdaterConfig, st: UpdaterState, soaClock: int, signClock: int)
    ensures var out := RecreateSpec(c, st, soaClock, signClock);
            out.1.Ok? ==>
              (out.0.zone.signature.Some? <==> st.rrsigAction.Some?)
              && (out.0.rrsigAction.Some? <==> st.rrsigAction.Some?)
              && (st.rrsigAction.Some? ==>
                    var mi := st.rrsigAction.value.iter.maxInterval;
                    out.0.rrsigAction == Some(RRSigAction(signClock + 20 * mi, st.rrsigAction.value.iter))
                    && out.0.zone.signature == Some(ZoneSignature(20 * mi, signClock, signClock + 52 * mi)))
  {
  }

  /** A new updater with a key signs on its first rebuild: its resign time is the
      epoch, which any clock reading has passed. Without a key nothing is ever due. */
  lemma FirstRebuildSigns(st: UpdaterState, maxInterval: int, key: Option<ExtendedPrivateKey>, now: int)
    requires st.rrsigAction == InitialAction(maxInterval, key) && now >= 0
    ensures NearToExpire(st, now) <==> key.Some?
  {
  }

  // ----- the updater ---------------------------------------------------------

  /** `DnsServerZoneUpdater`. */
  class DnsServerZoneUpdater {
    const maxInterval: int
    const nsRec: Rdataset
    const soaRec: SoaRecordIterator
    var rrsigAction: Option<RRSigAction>
    var aRecs: seq<AHealthyRecord>
    var zone: Zone
    var recreated: bool

    function Config(): UpdaterConfig
    {
      UpdaterConfig(maxInterval, soaRec.origin, soaRec.primaryNs, nsRec)
    }

    function State(): UpdaterState
      reads this, soaRec, soaRec.serial
    {
      UpdaterState(aRecs, zone, rrsigAction, recreated, soaRec.State())
    }

    predicate Valid()
      reads this, soaRec, soaRec.serial
    {
      soaRec.Valid() && soaRec.maxInterval == maxInterval && AllIpsValid(aRecs)
      && zone.origin.absolute && RecordsPlaced(zone.origin, aRecs)
    }

    constructor Init(maxInterval: int, nsRec: Rdataset, primaryNs: string, config: DnsServerConfig,
                     recs: seq<AHealthyRecord>)
      requires AllIpsValid(recs)
      requires config.originName.absolute && RecordsPlaced(config.originName, recs)
      ensures Valid() && fresh(soaRec) && fresh(soaRec.serial)
      ensures this.maxInterval == maxInterval && this.nsRec == nsRec
      ensures soaRec.origin == config.originName && soaRec.primaryNs == primaryNs
      ensures State() == UpdaterState(recs, Zone(config.originName, map[], None),
                                      InitialAction(maxInterval, config.extPrivateKey), false, RecordStart)
    {
      this.maxInterval := maxInterval;
      this.nsRec := nsRec;
      soaRec := new SoaRecordIterator(maxInterval, config.originName, primaryNs);
      rrsigAction := InitialAction(maxInterval, config.extPrivateKey);
      aRecs := recs;
      zone := Zone(config.originName, map[], None);
      recreated := false;
    }

    /** `DnsServerZoneUpdater(min_interval, connection_timeout, config)`: the two
        timing checks, then the NS record read from the name servers' text (a name
        that does not read raises `SyntaxError`), then the first name server the
        set yields becomes the SOA's primary (an empty set raises
        `StopIteration`), and the records are listed in the set's iteration
        order. The configuration is one the factory can build
        (`ConfigFitsUpdater`). */
    static method New(minInterval: int, connectionTimeout: int, config: DnsServerConfig)
      returns (r: Result<DnsServerZoneUpdater>)
      requires UpdaterReady(config)
      ensures minInterval <= 0 ==> r == Raise(ValueError(MinIntervalError))
      ensures minInterval > 0 && connectionTimeout <= 0 ==> r == Raise(ValueError(TimeoutError))
      ensures minInterval > 0 && connectionTimeout > 0 && (exists ns | ns in config.nameServers :: RdataName(ns).Raise?)
              ==> r == Raise(SyntaxError)
      ensures minInterval > 0 && connectionTimeout > 0 && config.nameServers == {} ==> r == Raise(StopIteration)
      ensures r.Ok? <==> minInterval > 0 && connectionTimeout > 0 && config.nameServers != {}
                         && forall ns | ns in config.nameServers :: RdataName(ns).Ok?
      ensures r.Ok? ==> fresh(r.value) && fresh(r.value.soaRec) && fresh(r.value.soaRec.serial) && r.value.Valid()
      ensures r.Ok? ==>
                var u := r.value;
                (forall x :: x in u.aRecs <==> x in config.aRecords)
                && (forall i, j | 0 <= i < j < |u.aRecs| :: u.aRecs[i] != u.aRecs[j])
                && u.maxInterval == CalculateMaxInterval(minInterval, connectionTimeout, u.aRecs,
                                                         config.extPrivateKey.Some?)
                && Ok(u.nsRec) == MakeNsRecord(u.maxInterval, config.nameServers)
                && u.soaRec.origin == config.originName && u.soaRec.primaryNs in config.nameServers
                && u.State() == UpdaterState(u.aRecs, Zone(config.originName, map[], None),
                                             InitialAction(u.maxInterval, config.extPrivateKey), false, RecordStart)
    {
      if minInterval <= 0 {
        return Raise(ValueError(MinIntervalError));
      }
      if connectionTimeout <= 0 {
        return Raise(ValueError(TimeoutError));
      }
      var recs := ListRecords(config.aRecords);
      ListedPlaced(config, recs);
      var mi := CalculateMaxInterval(minInterval, connectionTimeout, recs, config.extPrivateKey.Some?);
      var nsRec := MakeNsRecord(mi, config.nameServers);
      if nsRec.Raise? {
        return Raise(nsRec.error);
      }
      if config.nameServers == {} {
        return Raise(StopIteration);
      }
      var primaryNs :| primaryNs in config.nameServers;
      var u := new DnsServerZoneUpdater.Init(mi, nsRec.value, primaryNs, config, recs);
      return Ok(u);
    }

    /** `_refresh_a_record`: probes the addresses one by one, asking the callback
        before each probe and giving up when it says so. */
    static method RefreshARecord(rec: AHealthyRecord, shouldAbort: nat -> bool, probe: (string, int) -> bool,
                                 calls: nat)
      returns (r: Option<AHealthyRecord>)
      ensures r.None? <==> AbortedBetween(shouldAbort, calls, calls + |rec.healthyIps|)
      ensures r.Some? ==> r.value == RefreshedRecord(rec, probe)
    {
      var checked: set<AHealthyIp> := {};
      var updatedIps: seq<AHealthyIp> := [];
      var k := calls;
      while checked != rec.healthyIps
        invariant checked <= rec.healthyIps
        invariant k == calls + |checked|
        invariant !AbortedBetween(shouldAbort, calls, k)
        invariant Members(IpList(updatedIps)) == ProbedSet(checked, probe)
        decreases |rec.healthyIps - checked|
      {
        var healthIp :| healthIp in rec.healthyIps - checked;
        if shouldAbort(k) {
          StrictSubsetSmaller(checked, rec.healthyIps);
          AbortedAt(shouldAbort, calls, k, calls + |rec.healthyIps|);
          return None;
        }
        var checkedIp := UpdatedStatus(healthIp, probe(healthIp.ip, healthIp.healthPort));
        RefreshStep(rec, checked, healthIp, updatedIps, probe);
        TakeOne(rec.healthyIps, checked, healthIp);
        AbortedBetweenExtend(shouldAbort, calls, k);
        updatedIps := updatedIps + [checkedIp];
        checked := checked + {healthIp};
        k := k + 1;
      }
      RefreshDone(rec, updatedIps, probe);
      return Some(UpdatedIps(rec, IpList(updatedIps)));
    }

    /** `_refresh_a_recs`: refreshes every record in list order; an abort leaves the
        records as they were, otherwise they are replaced by their refreshed copies. */
    method RefreshARecs(shouldAbort: nat -> bool, probe: (string, int) -> bool) returns (r: RefreshResult)
      requires Valid()
      modifies this
      ensures Valid()
      ensures r == RefreshOutcome(old(aRecs), shouldAbort, probe)
      ensures r == Aborted ==> aRecs == old(aRecs)
      ensures r != Aborted ==> aRecs == Refreshed(old(aRecs), probe)
      ensures zone == old(zone) && rrsigAction == old(rrsigAction) && recreated == old(recreated)
    {
      var checkedRecs;
      r, checkedRecs := RefreshRecords(aRecs, shouldAbort, probe);
      if r != Aborted {
        RefreshedValid(aRecs, probe);
        RefreshedPlaced(zone.origin, aRecs, probe);
        aRecs := checkedRecs;
      }
    }

    /** The loop of `_refresh_a_recs` over the records, with the probe calls
        numbered across the whole pass. */
    static method RefreshRecords(recs: seq<AHealthyRecord>, shouldAbort: nat -> bool, probe: (string, int) -> bool)
      returns (r: RefreshResult, checkedRecs: seq<AHealthyRecord>)
      ensures r == RefreshOutcome(recs, shouldAbort, probe)
      ensures r != Aborted ==> checkedRecs == Refreshed(recs, probe)
    {
      checkedRecs := [];
      var anyChanges := false;
      var calls := 0;
      var i := 0;
      while i < |recs|
        invariant 0 <= i <= |recs|
        invariant |checkedRecs| == i
        invariant forall j | 0 <= j < i :: checkedRecs[j] == RefreshedRecord(recs[j], probe)
        invariant calls == TotalIps(recs[..i])
        invariant !AbortedBetween(shouldAbort, 0, calls)
        invariant anyChanges == Changed(recs, probe, i)
      {
        var checkedRecord := RefreshARecord(recs[i], shouldAbort, probe, calls);
        if checkedRecord.None? {
          RefreshRecordsAborted(recs, shouldAbort, i, calls);
          return Aborted, checkedRecs;
        }
        RefreshRecordsStep(recs, probe, i, checkedRecs);
        TotalIpsStep(recs, i);
        NotAbortedJoin(shouldAbort, 0, calls, calls + |recs[i].healthyIps|);
        ChangedExtend(recs, probe, i);
        checkedRecs := checkedRecs + [checkedRecord.value];
        anyChanges := anyChanges || checkedRecord.value.healthyIps != recs[i].healthyIps;
        calls := calls + |recs[i].healthyIps|;
        i := i + 1;
      }
      assert recs[..i] == recs;
      r := if anyChanges then Changes else NoChanges;
    }

    /** `_add_records_to_zone` on the cleared transaction: NS at the apex, the next
        SOA at the apex, then each record's A set. */
    method AddRecordsToZone(soaClock: int) returns (r: Result<map<Name, Node>>)
      requires Valid()
      modifies soaRec, soaRec.serial
      ensures Valid()
      ensures var soaStep := RecordStep(maxInterval, soaRec.origin, soaRec.primaryNs, old(soaRec.State()), soaClock);
              soaRec.State() == soaStep.0
              && (soaStep.1.Raise? ==> r == Raise(soaStep.1.error))
              && (soaStep.1.Ok? ==> r == BuiltNodes(zone.origin, maxInterval, nsRec, soaStep.1.value, aRecs))
    {
      var txn: map<Name, Node> := AddRdataset(map[], Empty, nsRec);
      var soa := soaRec.Next(soaClock);
      if soa.Raise? {
        return Raise(soa.error);
      }
      txn := AddRdataset(txn, Empty, soa.value);
      r := AddARecordsLoop(txn, zone.origin, maxInterval, aRecs);
    }

    /** The loop of `_add_records_to_zone` over the records, in list order; the
        first record that raises ends it. */
    static method AddARecordsLoop(apex: map<Name, Node>, origin: Name, maxInterval: int, recs: seq<AHealthyRecord>)
      returns (r: Result<map<Name, Node>>)
      ensures r == AddARecords(apex, origin, maxInterval, recs)
    {
      var txn := apex;
      var i := 0;
      while i < |recs|
        invariant 0 <= i <= |recs|
        invariant AddARecords(apex, origin, maxInterval, recs[..i]) == Ok(txn)
      {
        assert recs[..i + 1][..i] == recs[..i];
        var added := AddARecord(txn, origin, maxInterval, recs[i]);
        if added.Raise? {
          AddARecordsRaise(apex, origin, maxInterval, recs, i + 1);
          return Raise(added.error);
        }
        txn := added.value;
        i := i + 1;
      }
      assert recs[..i] == recs;
      return Ok(txn);
    }

    /** `_recreate_zone`. */
    method RecreateZone(soaClock: int, signClock: int) returns (r: Result<bool>)
      requires Valid()
      modifies this, soaRec, soaRec.serial
      ensures Valid()
      ensures (State(), r) == RecreateSpec(Config(), old(State()), soaClock, signClock)
    {
      var cleared := ClearZone(zone.nodes);
      var added := AddRecordsToZone(soaClock);
      if added.Raise? {
        return Raise(added.error);
      }
      assert cleared + added.value == added.value;
      zone := Zone(zone.origin, cleared + added.value, None);
      SignZone(signClock);
      recreated := true;
      return Ok(true);
    }

    /** `_sign_zone`, in the second transaction. */
    method SignZone(signClock: int)
      modifies this
      ensures var signed := Sign(old(rrsigAction), signClock);
              rrsigAction == signed.0
              && zone == (if signed.1.Some? then old(zone).(signature := signed.1) else old(zone))
      ensures aRecs == old(aRecs) && recreated == old(recreated)
    {
      if rrsigAction.None? {
        return;
      }
      var extKey := NextKey(rrsigAction.value.iter, signClock);
      zone := zone.(signature := Some(ZoneSignature(extKey.key.dnskeyTtl, extKey.key.inception, extKey.key.expiration)));
      rrsigAction := Some(RRSigAction(extKey.resign, rrsigAction.value.iter));
    }

    /** `_recreate_zone_after_refresh`. */
    method RecreateZoneAfterRefresh(shouldAbort: nat -> bool, probe: (string, int) -> bool,
                                    now: int, soaClock: int, signClock: int)
      returns (r: Result<bool>)
      requires Valid()
      modifies this, soaRec, soaRec.serial
      ensures Valid()
      ensures (State(), r) == AfterRefreshSpec(Config(), old(State()), shouldAbort, probe, now, soaClock, signClock)
    {
      var refreshResult := RefreshARecs(shouldAbort, probe);
      if refreshResult == Aborted {
        return Ok(false);
      }
      var doUpdateZone := refreshResult == Changes;
      if IsZoneSignNearToExpire(now) {
        doUpdateZone := true;
      }
      if doUpdateZone || !recreated {
        r := RecreateZone(soaClock, signClock);
      } else {
        r := Ok(false);
      }
    }

    /** `_is_zone_sign_near_to_expire`. */
    function IsZoneSignNearToExpire(now: int): (near: bool)
      reads this, soaRec, soaRec.serial
      ensures near == NearToExpire(State(), now)
    {
      if rrsigAction.Some? then now >= rrsigAction.value.resign else false
    }

    /** `update(check_ips=..., should_abort=...)`. */
    method Update(checkIps: bool, shouldAbort: nat -> bool, probe: (string, int) -> bool,
                  now: int, soaClock: int, signClock: int)
      returns (r: Result<bool>)
      requires Valid()
      modifies this, soaRec, soaRec.serial
      ensures Valid()
      ensures (State(), r) == UpdateSpec(Config(), old(State()), checkIps, shouldAbort, probe, now, soaClock, signClock)
    {
      if checkIps {
        r := RecreateZoneAfterRefresh(shouldAbort, probe, now, soaClock, signClock);
      } else {
        r := RecreateZone(soaClock, signClock);
      }
    }
  }

  /** `_clear_zone`: every node of the transaction is deleted, one name at a time. */
  method ClearZone(nodes: map<Name, Node>) returns (cleared: map<Name, Node>)
    ensures cleared == map[]
  {
    cleared := nodes;
    var names := nodes.Keys;
    while names != {}
      invariant cleared.Keys == names
      decreases |names|
    {
      var name :| name in names;
      cleared := cleared - {name};
      names := names - {name};
    }
  }

  /** Once the A records raise, the rest of the loop is not reached. */
  lemma {:induction false} AddARecordsRaise(nodes: map<Name, Node>, origin: Name, maxInterval: int,
                                            recs: seq<AHealthyRecord>, i: nat)
    requires 0 < i <= |recs|
    requires AddARecords(nodes, origin, maxInterval, recs[..i]).Raise?
    ensures AddARecords(nodes, origin, maxInterval, recs) == AddARecords(nodes, origin, maxInterval, recs[..i])
    decreases |recs| - i
  {
    if i == |recs| {
      assert recs[..i] == recs;
    } else {
      assert recs[..|recs| - 1][..i] == recs[..i];
      AddARecordsRaise(nodes, origin, maxInterval, recs[..|recs| - 1], i);
    }
  }

  /** The signing action a new updater starts with: with a key, a resign time at
      the epoch, so that the first rebuild signs. */
  function InitialAction(maxInterval: int, key: Option<ExtendedPrivateKey>): (a: Option<RRSigAction>)
    ensures a.Some? <==> key.Some?
    ensures a.Some? ==> a.value.resign == 0 && a.value.iter == RRSigKeyIterator(maxInterval, key.value)
  {
    match key
    case None => None
    case Some(k) => Some(RRSigAction(0, RRSigKeyIterator(maxInterval, k)))
  }

  /** `list(config.a_records)`: the records of the set, each once, in the order the
      set yields them. */
  method ListRecords(records: set<AHealthyRecord>) returns (recs: seq<AHealthyRecord>)
    ensures forall x :: x in recs <==> x in records
    ensures forall i, j | 0 <= i < j < |recs| :: recs[i] != recs[j]
  {
    var rest := records;
    recs := [];
    while rest != {}
      invariant forall x :: x in recs <==> x in records && x !in rest
      invariant rest <= records
      invariant forall i, j | 0 <= i < j < |recs| :: recs[i] != recs[j]
      decreases |rest|
    {
      var x :| x in rest;
      recs := recs + [x];
      rest := rest - {x};
    }
  }

  /** What the updater needs of its configuration: an absolute origin, and
      records that went through the address constructor, lie strictly below the
      origin and, as in a set of records compared by subdomain, never share a
      subdomain. */
  predicate UpdaterReady(config: DnsServerConfig)
  {
    config.originName.absolute && SubdomainsDistinct(config.aRecords)
    && forall rec | rec in config.aRecords ::
         IpsValid(rec) && IsSubdomain(rec.subdomain, config.originName)
         && |rec.subdomain.labels| > |config.originName.labels|
  }

  /** Every configuration `make_config` builds from decoded JSON suits the updater. */
  lemma ConfigFitsUpdater(args: ConfigArgs, readKey: string -> Option<seq<bv8>>,
                          buildKey: (string, seq<bv8>) -> Option<(PrivateKey, Dnskey)>)
    requires args.resolutions.Decoded? && args.resolutions.value.JObject? ==>
               Json.DistinctKeys(args.resolutions.value.members)
    ensures var r := MakeConfig(args, readKey, buildKey);
            r.Ok? && r.value.Some? ==> UpdaterReady(r.value.value)
  {
    MakeConfigLaws(args, readKey, buildKey);
  }

  /** The records of a ready configuration, listed each once, are placed below
      its origin. */
  lemma ListedPlaced(config: DnsServerConfig, recs: seq<AHealthyRecord>)
    requires UpdaterReady(config)
    requires forall x :: x in recs <==> x in config.aRecords
    requires forall i, j | 0 <= i < j < |recs| :: recs[i] != recs[j]
    ensures AllIpsValid(recs) && RecordsPlaced(config.originName, recs)
  {
    forall i, j | 0 <= i < j < |recs|
      ensures recs[i].subdomain != recs[j].subdomain
    {
      assert recs[i] in config.aRecords && recs[j] in config.aRecords;
    }
  }

  /** Refreshing the records keeps each one's subdomain, so they stay placed. */
  lemma RefreshedPlaced(origin: Name, recs: seq<AHealthyRecord>, probe: (string, int) -> bool)
    requires RecordsPlaced(origin, recs)
    ensures RecordsPlaced(origin, Refreshed(recs, probe))
  {
    var rs := Refreshed(recs, probe);
    forall i | 0 <= i < |recs| ensures rs[i].subdomain == recs[i].subdomain {
      assert rs[i] == RefreshedRecord(recs[i], probe);
    }
  }
}
