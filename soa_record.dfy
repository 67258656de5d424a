/** `records/soa_record.py`: the SOA serial generator `_iter_soa_serial` and the
    SOA record generator `iter_soa_record`. A Python generator is modelled as an
    object whose `Next` is one `next()` call, with the clock reading it makes
    passed in; once a generator has raised it is finished, and every later
    `next()` raises `StopIteration`. */
module SoaRecords {
  import opened Wrappers
  import opened Text
  import opened Tools
  import opened Time
  import opened Names
  import opened Dns
  import opened RdataText

  /** The serial generator's state: the last serial yielded (0 before the first),
      and whether it has finished by raising. */
  datatype SerialState = SerialState(last: int, closed: bool)

  const SerialStart := SerialState(0, false)

  function SameSerialError(serial: int): string
  {
    "Current serial " + DecimalString(serial) + " is the same as last serial"
  }

  /** One `next()` of `_iter_soa_serial` at clock reading `clock`: the reading
      becomes the serial unless it overflows 32 bits or repeats the last one. */
  function SerialStep(s: SerialState, clock: int): (out: (SerialState, Result<int>))
    ensures s.closed ==> out == (s, Raise(StopIteration))
    ensures out.1.Ok? <==> !s.closed && clock <= MaxUint32 && clock != s.last
    ensures out.1.Ok? ==> out.1.value == clock && out.0 == SerialState(clock, false)
    ensures out.1.Raise? ==> out.0.closed
    ensures !s.closed && clock <= MaxUint32 && clock == s.last ==>
              out.1 == Raise(ValueError(SameSerialError(clock)))
    ensures !s.closed && clock > MaxUint32 ==> out.1 == Uint32CurrentTime(clock)
  {
    if s.closed then (s, Raise(StopIteration))
    else
      match Uint32CurrentTime(clock)
      case Raise(e) => (s.(closed := true), Raise(e))
      case Ok(current) =>
        if current == s.last then (s.(closed := true), Raise(ValueError(SameSerialError(current))))
        else (SerialState(current, false), Ok(current))
  }

  /** What successive `next()` calls return, for successive clock readings. */
  function Serials(s: SerialState, clocks: seq<int>): (rs: seq<Result<int>>)
    ensures |rs| == |clocks|
    decreases |clocks|
  {
    if clocks == [] then []
    else
      var step := SerialStep(s, clocks[0]);
      [step.1] + Serials(step.0, clocks[1..])
  }

  /** A finished generator only raises `StopIteration`. */
  lemma {:induction false} ClosedStaysClosed(s: SerialState, clocks: seq<int>)
    requires s.closed
    ensures forall j | 0 <= j < |clocks| :: Serials(s, clocks)[j] == Raise(StopIteration)
    decreases |clocks|
  {
    if clocks != [] {
      ClosedStaysClosed(s, clocks[1..]);
      forall j | 0 <= j < |clocks| ensures Serials(s, clocks)[j] == Raise(StopIteration) {
        if j > 0 {
          assert Serials(s, clocks)[j] == Serials(s, clocks[1..])[j - 1];
        }
      }
    }
  }

  /** The i-th call yields a serial only if every earlier call did; the serial is
      the i-th clock reading, and it differs from the serial yielded before it
      (0 for the first call). */
  lemma {:induction false} SerialYielded(s: SerialState, clocks: seq<int>, i: nat)
    requires i < |clocks| && Serials(s, clocks)[i].Ok?
    ensures !s.closed && Serials(s, clocks)[i].value == clocks[i]
    ensures forall j | 0 <= j < i :: Serials(s, clocks)[j].Ok?
    ensures clocks[i] <= MaxUint32 && clocks[i] != (if i == 0 then s.last else clocks[i - 1])
    decreases i
  {
    var rs := Serials(s, clocks);
    var step := SerialStep(s, clocks[0]);
    var rest := Serials(step.0, clocks[1..]);
    assert rs == [step.1] + rest;
    if i > 0 {
      assert rs[i] == rest[i - 1];
      SerialYielded(step.0, clocks[1..], i - 1);
      assert step.0.last == clocks[0];
      forall j | 0 <= j < i ensures rs[j].Ok? {
        if j > 0 {
          assert rs[j] == rest[j - 1];
        }
      }
    }
  }

  /** Each call after the first is a call of the generator the first call left. */
  lemma SerialsShift(s: SerialState, clocks: seq<int>, j: nat)
    requires 0 < j < |clocks|
    ensures Serials(s, clocks)[j] == Serials(SerialStep(s, clocks[0]).0, clocks[1..])[j - 1]
  {
  }

  /** A call that raises is followed only by `StopIteration`. */
  lemma {:induction false} SerialRaised(s: SerialState, clocks: seq<int>, i: nat)
    requires i < |clocks| && Serials(s, clocks)[i].Raise?
    ensures forall j | i < j < |clocks| :: Serials(s, clocks)[j] == Raise(StopIteration)
    decreases i
  {
    var next := SerialStep(s, clocks[0]).0;
    if i == 0 {
      assert next.closed;
      ClosedStaysClosed(next, clocks[1..]);
    } else {
      SerialsShift(s, clocks, i);
      SerialRaised(next, clocks[1..], i - 1);
    }
    forall j | i < j < |clocks| ensures Serials(s, clocks)[j] == Raise(StopIteration) {
      SerialsShift(s, clocks, j);
    }
  }

  /** Under a clock that never goes back, the serials that are yielded strictly increase. */
  lemma {:induction false} SerialsIncrease(s: SerialState, clocks: seq<int>, i: nat, j: nat)
    requires i < j < |clocks|
    requires forall k | 0 < k < |clocks| :: clocks[k - 1] <= clocks[k]
    requires Serials(s, clocks)[j].Ok?
    ensures Serials(s, clocks)[i].Ok? && Serials(s, clocks)[i].value < Serials(s, clocks)[j].value
    decreases j - i
  {
    SerialYielded(s, clocks, j);
    SerialYielded(s, clocks, j - 1);
    if i < j - 1 {
      SerialsIncrease(s, clocks, i, j - 1);
    }
  }

  /** `_iter_soa_serial()`. */
  class SoaSerialIterator {
    var state: SerialState

    constructor()
      ensures state == SerialStart
    {
      state := SerialStart;
    }

    /** `next(serial)`, with the clock reading taken during the call. */
    method Next(clock: int) returns (r: Result<int>)
      modifies this
      ensures (state, r) == SerialStep(old(state), clock)
    {
      if state.closed {
        return Raise(StopIteration);
      }
      var current := Uint32CurrentTime(clock);
      if current.Raise? {
        state := state.(closed := true);
        return current;
      }
      if current.value == state.last {
        state := state.(closed := true);
        return Raise(ValueError(SameSerialError(current.value)));
      }
      state := SerialState(current.value, false);
      return current;
    }
  }

  /** What `iter_soa_record` keeps while it runs: the serial generator it drives,
      and whether it has finished by raising. */
  datatype RecordState = RecordState(serial: SerialState, closed: bool)

  const RecordStart := RecordState(SerialStart, false)

  /** The parts of the SOA text that are the same for every record read
      correctly: the primary name server and `hostmaster.<origin>` as names, and
      the four timers as TTLs. */
  predicate SoaTextParses(maxInterval: int, origin: Name, primaryNs: string)
  {
    RdataName(primaryNs).Ok? && RdataName("hostmaster." + ToText(origin)).Ok?
    && IsUint32(SoaRefresh(maxInterval)) && IsUint32(SoaRetry(maxInterval))
    && IsUint32(SoaExpire(maxInterval)) && IsUint32(SoaMinTtl(maxInterval))
  }

  /** The SOA record set carrying `serial`, read from its text: TTL 60·mi; the
      primary name server, `hostmaster.<origin>`, and refresh 20·mi, retry 2·mi,
      expire 10·mi, minimum 2·mi. Text that does not read raises `SyntaxError`. */
  function SoaRecord(maxInterval: int, origin: Name, primaryNs: string, serial: int): (r: Result<Rdataset>)
    ensures r.Ok? <==> SoaTextParses(maxInterval, origin, primaryNs) && IsUint32(serial)
    ensures r.Raise? ==> r.error == SyntaxError
    ensures r.Ok? ==> r.value.rdclass == IN && r.value.rdtype == SOA && r.value.ttl == SoaTtl(maxInterval) == 60 * maxInterval
    ensures r.Ok? ==> r.value.rdatas == {Soa(primaryNs, "hostmaster." + ToText(origin), serial,
                                             20 * maxInterval, 2 * maxInterval, 10 * maxInterval, 2 * maxInterval)}
  {
    var rname := "hostmaster." + ToText(origin);
    if !SoaParses(primaryNs, rname, serial, SoaRefresh(maxInterval), SoaRetry(maxInterval),
                  SoaExpire(maxInterval), SoaMinTtl(maxInterval))
    then Raise(SyntaxError)
    else
      Ok(Rdataset(IN, SOA, SoaTtl(maxInterval),
                  {Soa(primaryNs, rname, serial,
                       SoaRefresh(maxInterval), SoaRetry(maxInterval), SoaExpire(maxInterval), SoaMinTtl(maxInterval))}))
  }

  /** With a positive interval the timers read exactly when the largest of them,
      the refresh of 20·mi, fits in 32 bits. */
  lemma SoaTimersFit(maxInterval: int, origin: Name, primaryNs: string)
    requires maxInterval > 0
    ensures SoaTextParses(maxInterval, origin, primaryNs)
            <==> RdataName(primaryNs).Ok? && RdataName("hostmaster." + ToText(origin)).Ok?
                 && 20 * maxInterval <= MaxUint32
  {
  }

  /** The serial a SOA record set carries, if it holds one SOA record. */
  function SerialOf(r: Rdataset): Option<int>
  {
    if exists d :: d in r.rdatas && d.Soa? && r.rdatas == {d} then
      var d :| d in r.rdatas && d.Soa? && r.rdatas == {d};
      Some(d.serial)
    else None
  }

  /** Records built for two serials differ in the serial and nowhere else. */
  lemma SoaRecordSerial(maxInterval: int, origin: Name, primaryNs: string, s1: int, s2: int)
    requires SoaRecord(maxInterval, origin, primaryNs, s1).Ok? && SoaRecord(maxInterval, origin, primaryNs, s2).Ok?
    ensures SerialOf(SoaRecord(maxInterval, origin, primaryNs, s1).value) == Some(s1)
    ensures (SoaRecord(maxInterval, origin, primaryNs, s1) == SoaRecord(maxInterval, origin, primaryNs, s2)) <==> s1 == s2
  {
    var r := SoaRecord(maxInterval, origin, primaryNs, s1).value;
    var d := Soa(primaryNs, "hostmaster." + ToText(origin), s1,
                 20 * maxInterval, 2 * maxInterval, 10 * maxInterval, 2 * maxInterval);
    assert d in r.rdatas && r.rdatas == {d};
    if s1 != s2 {
      var d2 := d.(serial := s2);
      assert d2 in SoaRecord(maxInterval, origin, primaryNs, s2).value.rdatas;
      assert d2 !in r.rdatas;
    }
  }

  /** One `next()` of `iter_soa_record`: a record around the next serial. The
      serial generator's error, or the record text's, finishes this generator;
      once finished it raises `StopIteration`. */
  function RecordStep(maxInterval: int, origin: Name, primaryNs: string, s: RecordState, clock: int)
    : (out: (RecordState, Result<Rdataset>))
    ensures s.closed ==> out == (s, Raise(StopIteration))
    ensures !s.closed ==> out.0.serial == SerialStep(s.serial, clock).0
    ensures !s.closed && SerialStep(s.serial, clock).1.Raise? ==>
              out.1 == Raise(SerialStep(s.serial, clock).1.error) && out.0.closed
    ensures !s.closed && SerialStep(s.serial, clock).1.Ok? ==>
              out.1 == SoaRecord(maxInterval, origin, primaryNs, clock) && (out.0.closed <==> out.1.Raise?)
  {
    if s.closed then (s, Raise(StopIteration))
    else
      var step := SerialStep(s.serial, clock);
      match step.1
      case Raise(e) => (RecordState(step.0, true), Raise(e))
      case Ok(serial) =>
        match SoaRecord(maxInterval, origin, primaryNs, serial)
        case Raise(e) => (RecordState(step.0, true), Raise(e))
        case Ok(r) => (RecordState(step.0, false), Ok(r))
  }

  /** What successive `next()` calls on `iter_soa_record` return. */
  function SoaRecords(maxInterval: int, origin: Name, primaryNs: string, s: RecordState, clocks: seq<int>)
    : (rs: seq<Result<Rdataset>>)
    ensures |rs| == |clocks|
    decreases |clocks|
  {
    if clocks == [] then []
    else
      var step := RecordStep(maxInterval, origin, primaryNs, s, clocks[0]);
      [step.1] + SoaRecords(maxInterval, origin, primaryNs, step.0, clocks[1..])
  }

  /** A finished generator only raises `StopIteration`. */
  lemma {:induction false} RecordClosedStaysClosed(maxInterval: int, origin: Name, primaryNs: string,
                                                   s: RecordState, clocks: seq<int>)
    requires s.closed
    ensures forall j | 0 <= j < |clocks| :: SoaRecords(maxInterval, origin, primaryNs, s, clocks)[j] == Raise(StopIteration)
    decreases |clocks|
  {
    if clocks != [] {
      RecordClosedStaysClosed(maxInterval, origin, primaryNs, s, clocks[1..]);
      forall j | 0 <= j < |clocks|
        ensures SoaRecords(maxInterval, origin, primaryNs, s, clocks)[j] == Raise(StopIteration)
      {
        if j > 0 {
          assert SoaRecords(maxInterval, origin, primaryNs, s, clocks)[j]
              == SoaRecords(maxInterval, origin, primaryNs, s, clocks[1..])[j - 1];
        }
      }
    }
  }

  /** A call that raises, whether for the serial or for the record text, is
      followed only by `StopIteration`. */
  lemma {:induction false} RecordRaised(maxInterval: int, origin: Name, primaryNs: string,
                                        s: RecordState, clocks: seq<int>, i: nat)
    requires i < |clocks| && SoaRecords(maxInterval, origin, primaryNs, s, clocks)[i].Raise?
    ensures forall j | i < j < |clocks| :: SoaRecords(maxInterval, origin, primaryNs, s, clocks)[j] == Raise(StopIteration)
    decreases i
  {
    var step := RecordStep(maxInterval, origin, primaryNs, s, clocks[0]);
    var rest := SoaRecords(maxInterval, origin, primaryNs, step.0, clocks[1..]);
    assert SoaRecords(maxInterval, origin, primaryNs, s, clocks) == [step.1] + rest;
    if i == 0 {
      RecordClosedStaysClosed(maxInterval, origin, primaryNs, step.0, clocks[1..]);
    } else {
      RecordRaised(maxInterval, origin, primaryNs, step.0, clocks[1..], i - 1);
    }
  }

  /** One call of a running generator whose text reads: it keeps the two
      generators finished together, and it yields the record around the serial
      yielded, or raises the serial's error. */
  lemma RecordStepCarries(maxInterval: int, origin: Name, primaryNs: string, s: RecordState, clock: int)
    requires s.closed == s.serial.closed
    requires SoaTextParses(maxInterval, origin, primaryNs) && clock >= 0
    ensures var out := RecordStep(maxInterval, origin, primaryNs, s, clock);
            var serial := SerialStep(s.serial, clock);
            out.0.closed == out.0.serial.closed && out.0.serial == serial.0
            && (serial.1.Ok? ==> out.1 == SoaRecord(maxInterval, origin, primaryNs, serial.1.value) && out.1.Ok?)
            && (serial.1.Raise? ==> out.1 == Raise(serial.1.error))
  {
  }

  /** While the generator runs it has finished exactly when its serial generator
      has. With text that reads and a clock that is never negative, the n-th
      record is built around the n-th serial, or raises the n-th serial's error;
      nothing else varies between records. */
  lemma {:induction false} SoaRecordsCarrySerials(maxInterval: int, origin: Name, primaryNs: string,
                                                  s: RecordState, clocks: seq<int>, i: nat)
    requires s.closed == s.serial.closed
    requires SoaTextParses(maxInterval, origin, primaryNs)
    requires forall k | 0 <= k < |clocks| :: clocks[k] >= 0
    requires i < |clocks|
    ensures Serials(s.serial, clocks)[i].Ok? ==>
              SoaRecords(maxInterval, origin, primaryNs, s, clocks)[i]
              == SoaRecord(maxInterval, origin, primaryNs, Serials(s.serial, clocks)[i].value)
    ensures Serials(s.serial, clocks)[i].Ok? ==>
              SoaRecords(maxInterval, origin, primaryNs, s, clocks)[i].Ok?
    ensures Serials(s.serial, clocks)[i].Raise? ==>
              SoaRecords(maxInterval, origin, primaryNs, s, clocks)[i] == Raise(Serials(s.serial, clocks)[i].error)
    decreases i
  {
    var step := RecordStep(maxInterval, origin, primaryNs, s, clocks[0]);
    var serialStep := SerialStep(s.serial, clocks[0]);
    RecordStepCarries(maxInterval, origin, primaryNs, s, clocks[0]);
    var records := SoaRecords(maxInterval, origin, primaryNs, s, clocks);
    var rest := SoaRecords(maxInterval, origin, primaryNs, step.0, clocks[1..]);
    assert records == [step.1] + rest;
    var serials := Serials(s.serial, clocks);
    assert serials == [serialStep.1] + Serials(serialStep.0, clocks[1..]);
    if i > 0 {
      SoaRecordsCarrySerials(maxInterval, origin, primaryNs, step.0, clocks[1..], i - 1);
      assert serials[i] == Serials(serialStep.0, clocks[1..])[i - 1];
      assert records[i] == rest[i - 1];
    }
  }

  /** `iter_soa_record(max_interval, origin_name, primary_ns)`. */
  class SoaRecordIterator {
    const maxInterval: int
    const origin: Name
    const primaryNs: string
    const serial: SoaSerialIterator
    var closed: bool

    /** A finished serial generator has finished this generator too. */
    predicate Valid()
      reads this, serial
    {
      serial.state.closed ==> closed
    }

    function State(): RecordState
      reads this, serial
    {
      RecordState(serial.state, closed)
    }

    constructor(maxInterval: int, origin: Name, primaryNs: string)
      ensures Valid() && fresh(serial)
      ensures this.maxInterval == maxInterval && this.origin == origin && this.primaryNs == primaryNs
      ensures State() == RecordStart
    {
      this.maxInterval := maxInterval;
      this.origin := origin;
      this.primaryNs := primaryNs;
      serial := new SoaSerialIterator();
      closed := false;
    }

    /** `next(soa_rec)`, with the clock reading the serial generator takes. */
    method Next(clock: int) returns (r: Result<Rdataset>)
      requires Valid()
      modifies this, serial
      ensures Valid()
      ensures (State(), r) == RecordStep(maxInterval, origin, primaryNs, old(State()), clock)
    {
      if closed {
        return Raise(StopIteration);
      }
      var s := serial.Next(clock);
      if s.Raise? {
        closed := true;
        return Raise(s.error);
      }
      r := SoaRecord(maxInterval, origin, primaryNs, s.value);
      if r.Raise? {
        closed := true;
      }
    }
  }
}
