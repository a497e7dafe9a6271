/** From the senders' packet numbers over the wire to the round-trip samples:
    sender, wire format, recorder and statistics together. */
module EndToEnd {
  import opened Bytes
  import opened Collections
  import opened Wire
  import opened TxTimestamps
  import opened TxJob
  import R = Recorder
  import opened LossStats

  /** The table entry as the statistics loop reads it. */
  function ToRecord(info: R.Info): Record {
    Record(SplitSeqn(info.packed).0, SplitSeqn(info.packed).1, info.received, info.enqueued)
  }

  /** What happened to the senders of a test: their burst size and, per queue, the
      rounds of which the first `turns` took place. */
  datatype Test = Test(b: nat, rounds: seq<seq<Round>>, turns: seq<nat>) {
    ghost predicate Valid() {
      && b >= 1 && |rounds| == |turns| <= 128
      && forall q :: 0 <= q < |rounds| ==> QueueValid(q)
    }

    ghost predicate QueueValid(q: nat)
      requires q < |rounds| == |turns|
    {
      && turns[q] <= |rounds[q]| && (forall i :: 0 <= i < |rounds[q]| ==> rounds[q][i].Valid())
      && |LastAttempts(rounds[q], turns[q])| * b + 1 < TWO_28
    }

    /** The last attempt of each burst of queue q. */
    ghost function Times(q: nat): seq<U64>
      requires Valid() && q < |rounds|
    {
      assert QueueValid(q);
      LastAttempts(rounds[q], turns[q])
    }
  }

  /** The tables the senders leave behind. */
  ghost predicate TestRun(stamps: seq<seq<Stamp>>, test: Test) {
    && test.Valid() && |stamps| == |test.rounds|
    && forall q :: 0 <= q < |stamps| ==> Stamped(stamps[q], test.b, test.Times(q))
  }

  /** The number was put on the wire by queue q for its packet `seqn`. */
  ghost predicate SentBy(packed: nat, test: Test, q: nat, seqn: nat)
    requires test.Valid()
  {
    q < |test.rounds| && 2 <= seqn <= |test.Times(q)| * test.b + 1 && packed == MakeSeqn(q, seqn)
  }

  /** Round r of queue q carried packet `seqn` and was tried for the last time at `time`. */
  ghost predicate CarriedAt(test: Test, q: nat, seqn: nat, r: nat, time: U64)
    requires test.Valid()
  {
    && q < |test.rounds| && r < test.turns[q] && test.QueueValid(q)
    && test.rounds[q][r].Burst? && CarriedBy(seqn, test.b, BurstsBefore(test.rounds[q], r))
    && time == test.rounds[q][r].attempts[|test.rounds[q][r].attempts| - 1]
  }

  /** A sent packet that comes back is attributed to its queue and number, the
      search finds a send time, and that is the last transmit attempt of the
      round which carried it. */
  lemma EchoFindsItsBurst(stamps: seq<seq<Stamp>>, test: Test, info: R.Info, q: nat, seqn: nat)
    returns (r: nat, time: U64)
    requires TestRun(stamps, test) && SentBy(info.packed, test, q, seqn)
    ensures var record := ToRecord(info);
            && record.queue == q && record.seqn == seqn && Readable(record, stamps)
            && SentAt(stamps[record.queue], record.seqn) == Some(time)
    ensures CarriedAt(test, q, seqn, r, time)
  {
    assert test.QueueValid(q);
    PackedSeqnSplits(q, seqn);
    var k := EveryPacketCarried(seqn, test.b, |test.Times(q)|);
    r := LookupFindsBurst(stamps[q], test.b, test.rounds[q], test.turns[q], seqn, k);
    time := test.rounds[q][r].attempts[|test.rounds[q][r].attempts| - 1];
  }

  /** The number is one that some sender put on the wire. */
  ghost predicate OnTheWire(test: Test, packed: nat)
    requires test.Valid()
  {
    exists q, seqn :: SentBy(packed, test, q, seqn)
  }

  /** The record echoes a packet, and `trip` is the time from the last attempt of
      the round that carried it to its arrival. */
  ghost predicate TripOf(test: Test, info: R.Info, trip: int)
    requires test.Valid()
  {
    exists f :: Flown(test, info.packed, f) && trip == info.enqueued - f.time
  }

  /** The journey of a packet: who sent it as which number, in which round, and when
      that round was tried for the last time. */
  datatype Flight = Flight(queue: nat, seqn: nat, round: nat, time: U64)

  ghost predicate Flown(test: Test, packed: nat, f: Flight)
    requires test.Valid()
  {
    SentBy(packed, test, f.queue, f.seqn) && CarriedAt(test, f.queue, f.seqn, f.round, f.time)
  }

  lemma WireFindsItsFlight(stamps: seq<seq<Stamp>>, test: Test, info: R.Info) returns (f: Flight)
    requires TestRun(stamps, test) && OnTheWire(test, info.packed)
    ensures var record := ToRecord(info);
            Sampled(record, stamps) && SentAt(stamps[record.queue], record.seqn) == Some(f.time)
    ensures Flown(test, info.packed, f)
  {
    hide Readable, SentAt, Stamped, CarriedAt;
    var q, seqn :| SentBy(info.packed, test, q, seqn);
    var r, time := EchoFindsItsBurst(stamps, test, info, q, seqn);
    f := Flight(q, seqn, r, time);
  }

  lemma WireFindsItsTrip(stamps: seq<seq<Stamp>>, test: Test, info: R.Info)
    requires TestRun(stamps, test) && OnTheWire(test, info.packed)
    ensures var record := ToRecord(info);
            Sampled(record, stamps) && TripOf(test, info, Trip(record, stamps))
  {
    var f := WireFindsItsFlight(stamps, test, info);
  }

  /** If every recorded message echoes a packet some sender sent, the whole
      record table can be analysed. */
  lemma SessionIsReadable(stamps: seq<seq<Stamp>>, test: Test, table: seq<R.Info>)
    requires TestRun(stamps, test)
    requires forall i :: 0 <= i < |table| ==> OnTheWire(test, table[i].packed)
    ensures forall q :: 0 <= q < |stamps| ==> Increasing(stamps[q])
    ensures forall i :: 0 <= i < |table| ==> Sampled(ToRecord(table[i]), stamps)
  {
    forall q | 0 <= q < |stamps|
      ensures Increasing(stamps[q])
    {
      StampedIncreasing(stamps[q], test.b, test.Times(q));
    }
    forall i | 0 <= i < |table|
      ensures Sampled(ToRecord(table[i]), stamps)
    {
      WireFindsItsTrip(stamps, test, table[i]);
    }
  }

  // ---- the whole test ----------------------------------------------------------------

  /** The record yields a round trip. */
  predicate Sampled(r: Record, stamps: seq<seq<Stamp>>) {
    r.queue < |stamps| && Readable(r, stamps)
  }

  function Trip(r: Record, stamps: seq<seq<Stamp>>): int
    requires Sampled(r, stamps)
  {
    r.enqueued - SentAt(stamps[r.queue], r.seqn).value
  }

  /** With every record readable there is one round trip per record. */
  lemma {:induction false} OneTripPerRecord(data: seq<Record>, stamps: seq<seq<Stamp>>, k: nat)
    requires k <= |data|
    requires forall i :: 0 <= i < |data| ==> Sampled(data[i], stamps)
    ensures |RoundTrips(data, stamps, k)| == k
    ensures forall i :: 0 <= i < k ==> RoundTrips(data, stamps, k)[i] == Trip(data[i], stamps)
  {
    if k > 0 {
      OneTripPerRecord(data, stamps, k - 1);
    }
  }

  function ToRecords(table: seq<R.Info>): (r: seq<Record>)
    ensures |r| == |table|
  {
    seq(|table|, i requires 0 <= i < |table| => ToRecord(table[i]))
  }

  /** `statistics::process` over what a session recorded: fewer than three records
      are not analysed. */
  method Report(table: seq<R.Info>, stamps: seq<seq<Stamp>>, ghost test: Test) returns (trips: seq<int>)
    requires TestRun(stamps, test) && |table| < NOT_SET
    requires forall i :: 0 <= i < |table| ==> OnTheWire(test, table[i].packed)
    ensures |trips| == if |table| < 3 then 0 else |table|
    ensures forall i :: 0 <= i < |trips| ==> TripOf(test, table[i], trips[i])
  {
    hide Earliest, Latest, Tracks, SentAt, OnTheWire, TripOf;
    if |table| < 3 {
      return [];
    }
    SessionIsReadable(stamps, test, table);
    TripsAreRight(table, stamps, test);
    var data := ToRecords(table);
    var stats, gaps, first, last, reached;
    stats, gaps, trips, first, last, reached := Analyse(data, stamps);
  }

  lemma TripsAreRight(table: seq<R.Info>, stamps: seq<seq<Stamp>>, test: Test)
    requires TestRun(stamps, test)
    requires forall i :: 0 <= i < |table| ==> OnTheWire(test, table[i].packed)
    ensures var trips := RoundTrips(ToRecords(table), stamps, |table|);
            |trips| == |table| && forall i :: 0 <= i < |table| ==> TripOf(test, table[i], trips[i])
  {
    SessionIsReadable(stamps, test, table);
    OneTripPerRecord(ToRecords(table), stamps, |table|);
    forall i | 0 <= i < |table|
      ensures TripOf(test, table[i], Trip(ToRecord(table[i]), stamps))
    {
      WireFindsItsTrip(stamps, test, table[i]);
    }
  }

  /** The senders have gone through the test. */
  ghost predicate SendersRan(senders: seq<Sender>, test: Test)
    requires test.Valid()
    reads senders, set s | s in senders :: s.timestamps, set s | s in senders :: s.timestamps.memory
  {
    && |senders| == |test.rounds|
    && forall q :: 0 <= q < |senders| ==>
         senders[q].queue == q && senders[q].burstSize == test.b && senders[q].Sent(test.Times(q))
  }

  method Stamps(senders: seq<Sender>, ghost test: Test) returns (stamps: seq<seq<Stamp>>)
    requires test.Valid() && SendersRan(senders, test)
    ensures TestRun(stamps, test)
  {
    stamps := [];
    for q := 0 to |senders|
      invariant |stamps| == q
      invariant forall i :: 0 <= i < q ==> Stamped(stamps[i], test.b, test.Times(i))
    {
      stamps := stamps + [senders[q].timestamps.memory[..senders[q].timestamps.next]];
    }
  }

  // ---- bytes ---------------------------------------------------------------------------

  /** The message came back with the number of the payload. */
  ghost predicate Echoes(message: seq<Byte>, payload: seq<Byte>) {
    |message| >= SEQN_SIZE && |payload| >= SEQN_SIZE && message[..SEQN_SIZE] == payload[..SEQN_SIZE]
  }

  /** The message echoes something one of the senders has put on the wire. */
  ghost predicate EchoesSome(message: seq<Byte>, wires: seq<seq<seq<Byte>>>) {
    exists q, i :: 0 <= q < |wires| && 0 <= i < |wires[q]| && Echoes(message, wires[q][i])
  }

  /** Everything on the senders' wires has a number that was sent. */
  ghost predicate WiresOf(wires: seq<seq<seq<Byte>>>, test: Test)
    requires test.Valid()
  {
    && |wires| == |test.rounds|
    && forall q :: 0 <= q < |wires| ==> Numbered(wires[q], q, |test.Times(q)| * test.b + 1)
  }

  lemma EchoIsOnTheWire(message: seq<Byte>, wires: seq<seq<seq<Byte>>>, test: Test)
    requires test.Valid() && WiresOf(wires, test) && EchoesSome(message, wires)
    ensures |message| >= SEQN_SIZE && OnTheWire(test, Seqn(message))
  {
    var q, i :| 0 <= q < |wires| && 0 <= i < |wires[q]| && Echoes(message, wires[q][i]);
    assert IsPing(wires[q][i], q, i + 2);
    assert SentBy(Seqn(message), test, q, i + 2);
  }

  /** A Ping of a test, echoed as Ping or Pong in a packet long enough for the
      header, is recorded under its own number and not taken for a warmup. */
  lemma EchoIsRecorded(a: R.Arrival, payload: seq<Byte>, queue: Byte, seqn: nat, hz: U64)
    requires IsPing(payload, queue, seqn) && queue < 128 && seqn < TWO_28 && hz != 0
    requires R.Message(a.mbuf).Some? && Echoes(R.Message(a.mbuf).value, payload)
    requires MessageType(R.Message(a.mbuf).value) in {PING, PONG}
    ensures R.IsData(a) && R.InfoOf(a, hz).packed == MakeSeqn(queue, seqn)
  {
    PackedSeqnSplits(queue, seqn);
  }

  /** Every data message of the stream echoes something on a wire. */
  ghost predicate AllEchoes(stream: seq<R.Arrival>, wires: seq<seq<seq<Byte>>>) {
    forall k :: 0 <= k < |stream| && R.IsData(stream[k]) ==> EchoesSome(R.Message(stream[k].mbuf).value, wires)
  }

  lemma RecordsAreOnTheWire(stream: seq<R.Arrival>, hz: U64, wires: seq<seq<seq<Byte>>>, test: Test, j: nat)
    requires hz != 0 && test.Valid() && WiresOf(wires, test) && AllEchoes(stream, wires)
    requires j < |R.DataOf(stream, hz)|
    ensures OnTheWire(test, R.DataOf(stream, hz)[j].packed)
  {
    var k := R.DataComesFrom(stream, hz, j);
    EchoIsOnTheWire(R.Message(stream[k].mbuf).value, wires, test);
  }

  ghost function Wires(senders: seq<Sender>): (r: seq<seq<seq<Byte>>>)
    reads senders
    ensures |r| == |senders| && forall q :: 0 <= q < |senders| ==> r[q] == senders[q].wire
  {
    seq(|senders|, q requires 0 <= q < |senders| reads senders => senders[q].wire)
  }

  /** In terms of the arrivals: the record was made from a data message of the stream,
      and `trip` is the clock of the call that brought that message less the last
      transmit attempt of the round that carried the packet it echoes. */
  ghost predicate Timed(test: Test, stream: seq<R.Arrival>, hz: U64, info: R.Info, trip: int)
    requires test.Valid() && hz != 0
  {
    exists k, f ::
      && 0 <= k < |stream| && R.Records(info, stream[k], hz)
      && Flown(test, Seqn(R.Message(stream[k].mbuf).value), f) && trip == stream[k].now - f.time
  }

  lemma TripIsTimed(test: Test, stream: seq<R.Arrival>, hz: U64, info: R.Info, trip: int)
    requires test.Valid() && hz != 0 && R.RecordsSome(info, stream, hz) && TripOf(test, info, trip)
    ensures Timed(test, stream, hz, info, trip)
  {
    hide Flown;
    var k :| 0 <= k < |stream| && R.Records(info, stream[k], hz);
    var f :| Flown(test, info.packed, f) && trip == info.enqueued - f.time;
    assert Flown(test, Seqn(R.Message(stream[k].mbuf).value), f);
  }

  /** The whole path.  Senders have run; the data messages that arrive, however they
      are cut into calls, bring back the number field of payloads the senders put on
      the wire.  Then every round trip reported is the time from the last transmit
      attempt of the round that carried the packet to the clock of the call that
      brought it back, one for each record, and every record says of its message what
      it has to say. */
  method Measure(senders: seq<Sender>, channel: R.SockperfChannel, calls: seq<seq<R.Arrival>>, ghost test: Test)
    returns (trips: seq<int>, table: seq<R.Info>)
    requires test.Valid() && SendersRan(senders, test)
    requires channel.Valid() && channel.Ready() && channel.table.Length < NOT_SET
    requires channel.next == 0 && channel.warmup == None && !channel.stop
    requires AllEchoes(R.Concat(calls), Wires(senders))
    modifies channel`next, channel`warmup, channel`stop, channel.table
    ensures R.Holds(channel.Contents(), channel.quota, R.DataOf(R.Concat(calls), channel.hz))
    ensures |table| == (if channel.next < channel.table.Length then channel.next else channel.table.Length)
    ensures table == channel.table[..|table|]
    ensures |trips| == if |table| < 3 then 0 else |table|
    ensures forall i :: 0 <= i < |table| ==> R.RecordsSome(table[i], R.Concat(calls), channel.hz)
    ensures forall i :: 0 <= i < |trips| ==> Timed(test, R.Concat(calls), channel.hz, table[i], trips[i])
  {
    hide R.Records, TripOf, Timed, R.RecordsSome;
    var stamps := Stamps(senders, test);
    ghost var wires := Wires(senders);
    assert WiresOf(wires, test);
    channel.Session(calls);
    table := channel.table[..if channel.next < channel.table.Length then channel.next else channel.table.Length];
    forall i | 0 <= i < |table|
      ensures OnTheWire(test, table[i].packed)
    {
      var j := R.SlotsHoldData(channel.Contents(), channel.quota, R.DataOf(R.Concat(calls), channel.hz), i);
      RecordsAreOnTheWire(R.Concat(calls), channel.hz, wires, test, j);
    }
    trips := Report(table, stamps, test);
    forall i | 0 <= i < |trips|
      ensures Timed(test, R.Concat(calls), channel.hz, table[i], trips[i])
    {
      TripIsTimed(test, R.Concat(calls), channel.hz, table[i], trips[i]);
    }
  }
}
